# PetPack.kz site script: a verified model of its page rules

The site's script (`js/main.js`) mostly drives browser effects. A few of its
event handlers follow exact rules about state, and this project models those
rules in Dafny and proves them:

- **Contact deep link**: the submit handler builds a Russian greeting that
  holds the visitor's name and phone. It adds the typed message on its own
  line only when the message is not empty. It then opens
  `https://wa.me/77779501511?text=` followed by the `encodeURIComponent`
  encoding of that text. `encodeURIComponent` is modelled from ECMA-262,
  section 19.2.6 (URI Handling Functions). Characters outside the unescaped
  set are turned into UTF-8 octets, and each octet is written as an upper-case
  `%XX` triplet (section 2.1 of RFC 3986). The unescaped set is ALPHA, DIGIT and
  `- _ . ! ~ * ' ( )`. Its partner is `decodeURIComponent`, and the round trip
  between the two is proved.
- **Navigation bar**: the `scrolled` class past 50 pixels; the scan that
  picks the last section whose top minus 200 pixels has been scrolled past;
  the in-place rewrite of every nav link's `active` flag.
- **Mobile menu**: the burger's and the link panel's `active` flags and the
  body's `overflow` style, as a class whose click handlers are methods.
- **Carousels**: `Math.round(scrollLeft / (cardWidth + gap))` on whole pixels,
  the in-place rewrite of the indicator dots, and the testimonials
  auto-advance. The auto-advance has a mutable index, a truncating `%`, a
  re-seed on touchend and interval timers tracked by identity.

Files: `wrappers.dfy` (Option), `arithmetic.dfy` (division facts),
`uri_encoding.dfy`, `contact_form.dfy`, `navigation.dfy`, `mobile_menu.dfy`,
`carousel.dfy`, `auto_advance.dfy`.

Two facts about the code that the model keeps:
- The carousel index divides the scroll offset by the card width plus the gap
  the code adds (16 pixels for products, 12 for testimonials).
- The auto-advance index is not always in range. The code's `%` keeps the sign
  of the dividend. After a touchend re-seeds the index to s <= -2, the next
  tick gives a negative index exactly when s + 1 is not a multiple of the card
  count (`NegativeSeedSign`). When it is a multiple, the tick gives card 0.
  The tick lands in range after every re-seed from a non-negative offset
  (`ReseededTickInRange`).

## Model

| member | source | states |
|---|---|---|
| `UriEncoding.EncodeURIComponent` | js/main.js:297 | everything encodeURIComponent writes is unescaped characters (ALPHA, DIGIT, `- _ . ! ~ * ' ( )`) and `%XX` triplets with upper-case hex digits, nothing else; decodeURIComponent of the result gives back the input, for every string of scalar values |
| `UriEncoding.EncodeInjective` | js/main.js:297 | two strings with the same encoding are equal |
| `UriEncoding.Utf8RoundTrip` | js/main.js:297 | the UTF-8 octets the encoder writes for a character start with a lead octet announcing their number, and decode, with the overlong and surrogate checks, to that character |
| `UriEncoding.EncodeCharDecode` | js/main.js:297 | decoding one encoded character followed by any text yields the character followed by the decoding of that text |
| `ContactForm.ChatMessage` | js/main.js:292-295 | the text starts with greeting, name, `.\nМой номер: ` and phone; it is longer than that header exactly when the message is non-empty, and then continues with a newline and the message, so an empty message leaves no trailing line |
| `ContactForm.TypedMessageRoundTrip` | js/main.js:292-295 | reading the typed message back out of the built text, given name and phone, returns exactly the message typed, the empty one included |
| `ContactForm.ChatLink` | js/main.js:297 | the link starts with `https://wa.me/77779501511?text=`, the rest lies in the encoder's output alphabet and decodes back to the built text |
| `ContactForm.ChatLinkDeterminesMessage` | js/main.js:292-297 | for the same name and phone, equal links come only from equal messages |
| `ContactForm.EmptyMessageExample` | js/main.js:287-297 | name `Aigerim`, phone `+77001234567` and an empty message give the greeting ending in the phone number, and the link decodes to it |
| `Navigation.NavBar.constructor` | js/main.js:28-29 | the bar starts with its markup class and a last scroll position of 0 |
| `Navigation.NavBar.OnScroll` | js/main.js:31-39 | after a scroll the bar is `scrolled` exactly when scrollY > 50, and the last scroll position is recorded |
| `Navigation.LastReached` | js/main.js:322-328 | the position returned is reached (scrollY >= offsetTop - 200) and no later section is, or it is -1 and no section is reached |
| `Navigation.CurrentSection` | js/main.js:321-328 | the scan returns '' when no section is reached, otherwise the id of a reached section after which none is reached |
| `Navigation.ReachedPrefix` | js/main.js:322-328 | when section tops are non-decreasing in document order, a section is reached exactly when it is at or before the current one |
| `Navigation.HighlightLinks` | js/main.js:329-334 | afterwards each link is active exactly when its href attribute is present and equals '#' + current |
| `Navigation.OnScrollHighlight` | js/main.js:321-335 | the handler marks exactly the links whose href is '#' followed by the last reached section's id |
| `Navigation.NothingReachedMatchesHashOnly` | js/main.js:322-334 | with no section reached, a link is active exactly when its href is '#' |
| `Navigation.AtMostOneLinkMatches` | js/main.js:329-334 | with pairwise different hrefs, at most one link is active |
| `MobileMenu.Menu.constructor` | js/main.js:42-45 | the two flags and the body style start as the markup gives them; both off with an empty style is in sync |
| `MobileMenu.Menu.OnBurgerClick` | js/main.js:46-50 | a burger click flips both flags; the body is `hidden` exactly when the panel is open afterwards; flags in sync stay in sync |
| `MobileMenu.Menu.OnLinkClick` | js/main.js:53-59 | a nav-link click closes the menu from any state: both flags off, body style empty, in sync; repeating it changes nothing |
| `MobileMenu.DoubleBurgerClick` | js/main.js:46-50 | two burger clicks restore both flags and, from an in-sync menu, the body style |
| `Carousel.RoundDiv` | js/main.js:147 | Math.round(a / b) for b > 0: the result r satisfies r - 1/2 <= a/b < r + 1/2, the nearest integer with halves rounded up |
| `Carousel.RoundDivUnique` | js/main.js:147 | that bracket determines the result: any integer within it equals RoundDiv |
| `Carousel.DotPattern` | js/main.js:149-151 | the dot state written by the loop: n dots, dot i active exactly when i is the index |
| `Carousel.ActiveDotCount` | js/main.js:149-151 | after a dot update exactly one dot is active when the index names a dot, and none when it is negative or past the last dot |
| `Carousel.HighlightDots` | js/main.js:149-151 | with a card present every dot is active exactly when its position equals the active index; with none the dots are left unchanged |
| `Carousel.OnProductsScroll` | js/main.js:143-153 | the products dots follow Math.round(scrollLeft / (cardWidth + 16)) |
| `Carousel.OnTestimonialsScroll` | js/main.js:159-169 | the testimonial dots follow Math.round(scrollLeft / (cardWidth + 12)); no card, no change |
| `Carousel.ScrollToCardSelectsIt` | js/main.js:172-178 | scrolling to pitch * i makes card i the active one |
| `Carousel.RoundDivNonNegative` | js/main.js:200 | a non-negative offset gives a non-negative index |
| `AutoAdvance.JsRem` | js/main.js:185 | JavaScript `%`: dividend minus result is a multiple of the divisor, the result is strictly within the divisor, it equals the mathematical remainder for non-negative dividends and is never positive for negative ones |
| `AutoAdvance.NextIndex` | js/main.js:185 | a tick gives NaN with no cards; otherwise a number congruent to index + 1, strictly within the card count, in [0, totalCards) whenever the old index was at least -1, and never positive when index + 1 is not positive |
| `AutoAdvance.AdvanceCycles` | js/main.js:182-190 | from the first card, after k ticks the index is k mod totalCards |
| `AutoAdvance.ReseededTickInRange` | js/main.js:196-204 | after a touchend re-seed from any non-negative offset, however far past the last card, the next tick lands in [0, totalCards) |
| `AutoAdvance.NegativeSeedSign` | js/main.js:200-202 | after a re-seed s <= -2 the next tick is negative exactly when s + 1 is not a multiple of the card count, and card 0 otherwise |
| `AutoAdvance.NegativeSeedStaysNegative` | js/main.js:200-202 | a re-seeded index of -3 with 5 cards becomes -2, not a card index |
| `AutoAdvance.ClearHandle` | js/main.js:193-195 | touchstart stops the interval in the handle and nothing else: every other interval keeps running; with at most one interval running, none runs afterwards |
| `AutoAdvance.RestartAsWritten` | js/main.js:196-205 | touchend as written starts a fresh interval, puts it in the handle and keeps every running one; an interval running in the handle is left running outside the handle; from at most one running interval, at most one runs afterwards exactly when none ran before |
| `AutoAdvance.Restart` | js/main.js:196-205 | touchend with the handle cleared first: from at most one running interval, exactly the new one runs |
| `AutoAdvance.SingleFingerTouchKeepsOneTimer` | js/main.js:193-205 | as written, one touchstart then one touchend, from at most one running interval, leave exactly the new interval running |
| `AutoAdvance.TwoFingerTouchLeaksInterval` | js/main.js:193-205 | two touchstarts then two touchends leave intervals 1 and 2 running, and a further touchstart stops only interval 2 |
| `AutoAdvance.CorrectedTouchKeepsOneTimer` | js/main.js:193-205 | with the correction a touchstart leaves no interval running and a touchend exactly one |
| `AutoAdvance.CorrectedTouchesKeepOneTimer` | js/main.js:193-205 | with the correction any sequence of touchstart and touchend events, in any interleaving, leaves at most one interval running |
| `AutoAdvance.Testimonials.constructor` | js/main.js:182-184 | the carousel starts at index 0 with the first interval running alone and the pitch equal to the card width plus 12 |
| `AutoAdvance.Testimonials.Tick` | js/main.js:184-190 | a firing of any running interval sets the index to NextIndex of the old one and, with a card, scrolls to pitch * index, where the dot handler marks that card |
| `AutoAdvance.Testimonials.TouchStart` | js/main.js:193-195 | touchstart clears the interval in the handle and only that one; from at most one running interval, none runs afterwards |
| `AutoAdvance.Testimonials.TouchEnd` | js/main.js:196-205 | with a card, the index becomes Math.round(scrollLeft / pitch) and a fresh interval is added to the running ones and put in the handle, without clearing the one the handle held; with none, nothing changes |
| `AutoAdvance.Testimonials.DotClick` | js/main.js:172-178 | a click on dot i scrolls, with a card, to pitch * i, where the dot handler marks dot i |
| `AutoAdvance.SingleFingerTouch` | js/main.js:193-205 | on the class, a touchstart and a touchend from at most one running interval leave exactly the new interval running and the index re-seeded |
| `AutoAdvance.TwoFingerTouch` | js/main.js:193-205 | on the class, from the page as loaded, two touchstarts and two touchends leave intervals 1 and 2 running with only 2 in the handle |

## Findings

| source | as written | input that shows it | evidently intended | confidence | as-written member | corrected member |
|---|---|---|---|---|---|---|
| js/main.js:196-205 | touchend starts a new interval and stores its handle without clearing the interval the handle held | a two-finger touch: touchstart, touchstart, touchend, touchend leaves two intervals running, and a later touchstart stops only the second, so the index advances twice per period from then on | pause on touch and resume on release with one interval running | high that the leak occurs for this event sequence; not executed | `AutoAdvance.TwoFingerTouch` | `AutoAdvance.CorrectedTouchKeepsOneTimer` |

`AutoAdvance.RestartAsWritten` is the touchend of the code as written, and the
`Testimonials` class uses it, so the class can reach states with several
intervals running. `AutoAdvance.TwoFingerTouchLeaksInterval` shows the same
sequence on the timer functions alone. `AutoAdvance.Restart` is the corrected
touchend, which clears the handle first; `AutoAdvance.CorrectedTouchKeepsOneTimer`
proves that one corrected touchstart or touchend keeps at most one interval
running, and `AutoAdvance.CorrectedTouchesKeepOneTimer` extends this by
induction to any sequence of touches.

## Left out

- The preloader, the hero title fade-in and the counter start delay: timer scheduling only.
- The scroll progress bar: floating-point division, which is undefined on a page no taller than the viewport.
- The counter animation: it depends on `performance.now`, `requestAnimationFrame`, floating-point easing and `ru-RU` locale formatting.
- The reveal and counter IntersectionObserver callbacks: browser viewport geometry.
- Smooth anchor scrolling: it depends on `getBoundingClientRect` and `scrollTo` geometry.
- Particles, injected style sheets, parallax and tilt: randomness, CSS text and floating-point transforms.
- The form's button swap, `window.open`, `form.reset()` and the one-second delay: DOM side effects and navigation. The model stops at the link text.
- Interval scheduling: a firing is the method `Testimonials.Tick`, called with the id of a running interval. Nothing models when it fires.
- Scrolling: a `scrollTo` is recorded as its requested `left` offset. The smooth scroll itself and the offset it produces are not modelled.
- Fractional pixels: all offsets and widths are whole numbers, as `offsetWidth` and `offsetTop` are. A fractional `scrollY` or `scrollLeft` is not modelled.
- Layout changes: card width is fixed for the life of the page. The first interval re-reads the width on every tick, while a touchend interval keeps the width it read at touchend. The two agree only while the width does not change.
- Initial markup state: the menu, bar and carousel start from values passed to their constructors; the model does not read the page's HTML.
- Missing elements: the nav bar's scroll handler is always attached (js/main.js:28-39); without `#nav` it throws a TypeError at `nav.classList` on every scroll, which `Navigation.NavBar` does not represent (the model assumes the bar is present). The burger and nav panel handlers are attached only when both elements exist (js/main.js:45), and the products grid handlers only with the grid and at least one dot (js/main.js:143); the model assumes these elements are present. In the scroll handlers a missing first card is modelled as `None`. In `Testimonials`, a card is present exactly when `totalCards > 0`: the model takes the set of cards as fixed for the life of the page, while the code counts the cards once at load (js/main.js:183) and checks for the first card in every handler (js/main.js:174-175, 186-187, 197-198). The testimonials handlers, and so the auto-advance, exist only when the grid and at least one dot are present (js/main.js:159).
- `Carousel.OnProductsScroll`: with no product card the code throws a TypeError when it reads the width. The model only states that the dots stay unchanged, without modelling the exception.
- `UriEncoding.EncodeURIComponent`: strings are sequences of Unicode scalar values. A lone UTF-16 surrogate, for which encodeURIComponent throws a URIError, cannot be represented, so that error path is not modelled.
