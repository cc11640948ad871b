/** The slide index of `src/components/HeroCarousel.tsx`. */
module HeroCarousel {

  /** `slides.length`. */
  const SlideCount := 4

  /** JavaScript's `a % n` for a positive `n`: the remainder takes the sign of `a`. */
  function JsRem(a: int, n: int): (r: int)
    requires n > 0
    ensures a >= 0 ==> 0 <= r < n && r == a % n
    ensures a < 0 ==> -n < r <= 0 && (-r) == (-a) % n
  {
    if a >= 0 then a % n else -((-a) % n)
  }

  /** `(prev + 1) % slides.length`. */
  function NextIndex(i: int): (r: int)
    ensures i >= -1 ==> r == (i + 1) % SlideCount
    ensures InRange(i) ==> InRange(r)
  {
    JsRem(i + 1, SlideCount)
  }

  /** `(prev - 1 + slides.length) % slides.length`. */
  function PrevIndex(i: int): (r: int)
    ensures i >= -3 ==> r == (i - 1) % SlideCount
    ensures InRange(i) ==> InRange(r)
  {
    JsRem(i - 1 + SlideCount, SlideCount)
  }

  predicate InRange(i: int)
  {
    0 <= i < SlideCount
  }

  /** "Next" moves one slide forward and wraps from the last to the first. */
  lemma NextSteps(i: int)
    requires InRange(i)
    ensures InRange(NextIndex(i))
    ensures i < SlideCount - 1 ==> NextIndex(i) == i + 1
    ensures i == SlideCount - 1 ==> NextIndex(i) == 0
  {
  }

  /** "Previous" moves one slide back and wraps from the first to the last. */
  lemma PrevSteps(i: int)
    requires InRange(i)
    ensures InRange(PrevIndex(i))
    ensures i > 0 ==> PrevIndex(i) == i - 1
    ensures i == 0 ==> PrevIndex(i) == SlideCount - 1
  {
  }

  /** On a shown slide, "previous" undoes "next" and "next" undoes "previous". */
  lemma NextPrevInverse(i: int)
    requires InRange(i)
    ensures PrevIndex(NextIndex(i)) == i
    ensures NextIndex(PrevIndex(i)) == i
  {
  }

  /** Four presses of "next" come back to the same slide. */
  lemma NextFourTimes(i: int)
    requires InRange(i)
    ensures NextIndex(NextIndex(NextIndex(NextIndex(i)))) == i
  {
  }

  /** Outside the range the truncating remainder does not bring the index back:
      "previous" from -4 gives -1, which shows no slide. */
  lemma PrevFromBelowRangeStaysOut()
    ensures PrevIndex(-4) == -1 && !InRange(PrevIndex(-4))
  {
  }

  /** Slide and dot `index` are highlighted exactly when it is the current slide. */
  predicate Active(current: int, index: int)
  {
    index == current
  }

  /** On a slide in range exactly one of the four dots is highlighted; out of range none is. */
  lemma ActiveDots(current: int)
    ensures InRange(current) ==> (set i | 0 <= i < SlideCount && Active(current, i)) == {current}
    ensures !InRange(current) ==> (set i | 0 <= i < SlideCount && Active(current, i)) == {}
  {
  }

  /** The component's `currentSlide` state. */
  class Carousel {
    var currentSlide: int

    ghost predicate Valid()
      reads this
    {
      InRange(currentSlide)
    }

    /** `useState(0)`. */
    constructor ()
      ensures currentSlide == 0 && Valid()
    {
      currentSlide := 0;
    }

    /** `goToSlide(index)`: takes the index as given; the dots pass 0 to 3. */
    method GoToSlide(index: int)
      modifies this
      ensures currentSlide == index
      ensures InRange(index) ==> Valid()
    {
      currentSlide := index;
    }

    /** `nextSlide`. */
    method NextSlide()
      modifies this
      ensures currentSlide == NextIndex(old(currentSlide))
      ensures old(Valid()) ==> Valid()
    {
      currentSlide := NextIndex(currentSlide);
    }

    /** `prevSlide`. */
    method PrevSlide()
      modifies this
      ensures currentSlide == PrevIndex(old(currentSlide))
      ensures old(Valid()) ==> Valid()
    {
      currentSlide := PrevIndex(currentSlide);
    }

    /** One firing of the 5000 ms interval timer: the same step as "next". */
    method Tick()
      modifies this
      ensures currentSlide == NextIndex(old(currentSlide))
      ensures old(Valid()) ==> Valid()
    {
      NextSlide();
    }
  }
}
