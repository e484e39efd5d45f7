/** `Image`: a cover or profile picture descriptor. Kotlin's `==` on images
    calls the overridden `equals`, which compares URLs only; the model uses
    `ImageEquals` wherever the source writes `==` on images. */
module ImageData {
  import opened KotlinRuntime

  datatype Image = Image(height: Int32, width: Int32, url: string)

  /** `Image.EMPTY`, the "no image" sentinel. */
  const EMPTY: Image := Image(0, 0, "")

  /** `Image.equals`: equal iff the URLs are equal. */
  predicate ImageEquals(a: Image, b: Image) {
    a.url == b.url
  }

  /** `Image.compareTo`: `height - other.height` on Kotlin `Int`, so it wraps
      around when the difference leaves the `Int` range. */
  function CompareTo(a: Image, b: Image): Int32 {
    Sub32(a.height, b.height)
  }

  /** Heights that cannot make `compareTo` overflow (the service's images
      always have such heights). */
  predicate NonNegativeHeight(a: Image) { a.height >= 0 }

  /** Image equality is an equivalence that ignores height and width. */
  lemma ImageEqualsIsEquivalence(a: Image, b: Image, c: Image)
    ensures ImageEquals(a, a)
    ensures ImageEquals(a, b) == ImageEquals(b, a)
    ensures ImageEquals(a, b) && ImageEquals(b, c) ==> ImageEquals(a, c)
    ensures ImageEquals(a, b) <==> ImageEquals(Image(0, 0, a.url), Image(b.height, b.width, b.url))
  {
  }

  /** An image equals `EMPTY` exactly when its URL is empty, whatever its size. */
  lemma EqualsEmptyIffNoUrl(a: Image)
    ensures ImageEquals(a, EMPTY) <==> a.url == ""
    ensures EMPTY.height == 0 && EMPTY.width == 0
  {
  }

  /** For non-negative heights the subtraction cannot overflow: the sign of
      `compareTo` is the sign of the height difference, and swapping the
      arguments negates it. */
  lemma CompareToMatchesHeights(a: Image, b: Image)
    requires NonNegativeHeight(a) && NonNegativeHeight(b)
    ensures CompareTo(a, b) == a.height - b.height
    ensures CompareTo(a, b) < 0 <==> a.height < b.height
    ensures CompareTo(a, b) == 0 <==> a.height == b.height
    ensures CompareTo(a, b) == 0 - CompareTo(b, a)
  {
  }

  /** With arbitrary `Int` heights the subtraction does wrap around: a lower
      image can compare greater. */
  lemma CompareToCanOverflow()
    ensures CompareTo(Image(MIN_INT, 0, "a"), Image(1, 0, "b")) > 0
  {
  }

  /** The ordering is not consistent with equality: equal heights compare 0
      although the images are different. */
  lemma OrderingInconsistentWithEquals()
    ensures CompareTo(Image(640, 640, "a"), Image(640, 300, "b")) == 0
    ensures !ImageEquals(Image(640, 640, "a"), Image(640, 300, "b"))
  {
  }
}
