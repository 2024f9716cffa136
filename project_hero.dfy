/**
 * The background slideshow of a project page (`ProjectHero`): the index of
 * the image on show, the previous/next buttons, the six-second auto-advance
 * and what the slide displays.
 */
module ProjectHero {
  import opened Wrappers
  import opened Modular

  /** One encoded rendition of an image in each of the three formats. */
  datatype Formats = Formats(avif: string, webp: string, jpeg: string)

  /** An image as the component's props describe it. */
  datatype HeroImage = HeroImage(src: Formats, thumbnail: Formats, alt: string, width: int, height: int)

  /** `(prev + 1) % n`: the operands are never negative, so JavaScript's `%` is the modulus. */
  function NextIndex(i: nat, n: nat): (j: nat)
    requires n > 0
    ensures j < n
    ensures i < n - 1 ==> j == i + 1
    ensures i == n - 1 ==> j == 0
  {
    (i + 1) % n
  }

  /** `(prev - 1 + n) % n`. */
  function PrevIndex(i: nat, n: nat): (j: nat)
    requires n > 0
    ensures j < n
    ensures 0 < i <= n ==> j == i - 1
    ensures i == 0 ==> j == n - 1
  {
    (i - 1 + n) % n
  }

  /** The previous button undoes the next button, and the other way round. */
  lemma PrevUndoesNext(i: nat, n: nat)
    requires i < n
    ensures PrevIndex(NextIndex(i, n), n) == i
    ensures NextIndex(PrevIndex(i, n), n) == i
  {
  }

  /** The index after `k` steps forward. */
  function Advance(i: nat, n: nat, k: nat): (j: nat)
    requires n > 0
    ensures j < n || (k == 0 && j == i)
  {
    if k == 0 then i else NextIndex(Advance(i, n, k - 1), n)
  }

  /** `k` steps forward from an index on show move it to `(i + k) % n`. */
  lemma {:induction false} AdvanceIsModular(i: nat, n: nat, k: nat)
    requires i < n
    ensures Advance(i, n, k) == (i + k) % n
  {
    if k > 0 {
      AdvanceIsModular(i, n, k - 1);
      ModSucc(i + k - 1, n);
    }
  }

  /** Going forward once per image returns the slideshow to where it started. */
  lemma FullCycle(i: nat, n: nat)
    requires i < n
    ensures Advance(i, n, n) == i
  {
    AdvanceIsModular(i, n, n);
    ModUnique(i + n, n, 1, i);
  }

  /** The gallery's state: its props and the `currentImageIndex` state. */
  class Gallery {
    var title: string
    var images: seq<HeroImage>
    var current: nat

    /** The index starts at 0. */
    constructor(title: string, images: seq<HeroImage>)
      ensures this.title == title && this.images == images && current == 0
    {
      this.title := title;
      this.images := images;
      current := 0;
    }

    /** The index is that of an image on show (it can fall outside when the `images` prop shrinks). */
    predicate OnShow()
      reads this
    {
      current < |images|
    }

    /** The previous/next controls and the counter are rendered only for more than one image. */
    predicate ShowsControls()
      reads this
    {
      |images| > 1
    }

    /** The counter `Image i+1 of n`, when it is rendered. */
    function Counter(): (c: Option<(nat, nat)>)
      reads this
      ensures c.Some? <==> ShowsControls()
      ensures c.Some? ==> c.value == (current + 1, |images|)
      ensures c.Some? && OnShow() ==> 1 <= c.value.0 <= c.value.1
    {
      if ShowsControls() then Some((current + 1, |images|)) else None
    }

    /** `goToNext`, reachable from the next button, which is rendered only for more than one image. */
    method GoToNext()
      requires |images| > 0
      modifies this
      ensures images == old(images) && title == old(title)
      ensures current == NextIndex(old(current), |images|)
      ensures OnShow()
    {
      current := (current + 1) % |images|;
    }

    /** `goToPrevious`. */
    method GoToPrevious()
      requires |images| > 0
      modifies this
      ensures images == old(images) && title == old(title)
      ensures current == PrevIndex(old(current), |images|)
      ensures OnShow()
    {
      current := (current - 1 + |images|) % |images|;
    }

    /** One six-second tick: the interval exists only for more than one image and steps like `goToNext`. */
    method Tick()
      modifies this
      ensures images == old(images) && title == old(title)
      ensures current == if |images| > 1 then NextIndex(old(current), |images|) else old(current)
      ensures old(OnShow()) ==> OnShow()
    {
      if |images| > 1 {
        current := (current + 1) % |images|;
      }
    }

    /** New props: the index state survives a change of `title` and `images`. */
    method Rerender(title: string, images: seq<HeroImage>)
      modifies this
      ensures this.title == title && this.images == images && current == old(current)
    {
      this.title := title;
      this.images := images;
    }

    /**
     * The source shown: the JPEG of the current image, or of the first image
     * when the current one is missing or its source is empty; nothing when
     * there are no images.
     */
    function DisplayedSrc(): (src: Option<string>)
      reads this
      ensures src.None? <==> images == []
      ensures OnShow() && images[current].src.jpeg != [] ==> src == Some(images[current].src.jpeg)
      ensures !(OnShow() && images[current].src.jpeg != []) && images != [] ==> src == Some(images[0].src.jpeg)
    {
      if current < |images| && images[current].src.jpeg != [] then Some(images[current].src.jpeg)
      else if images != [] then Some(images[0].src.jpeg)
      else None
    }

    /** The alternative text: the current image's, or `<title> project image`. */
    function DisplayedAlt(): (alt: string)
      reads this
      ensures OnShow() && images[current].alt != [] ==> alt == images[current].alt
      ensures !OnShow() || images[current].alt == [] ==> alt == title + " project image"
    {
      if current < |images| && images[current].alt != [] then images[current].alt else title + " project image"
    }
  }
}
