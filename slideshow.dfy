// Slideshow mode: the slider picks a 1-based position, and the Previous and
// Next buttons write a clamped neighbour of that position into the session
// dictionary under the key "slide".
module Slideshow {
  import Config
  import GalleryGrid

  /** The session-dictionary key the navigation buttons write. */
  const SlideKey: string := "slide"

  /** The slider's initial value. */
  const SliderDefault: int := 1

  function Max(a: int, b: int): (m: int)
    ensures m >= a && m >= b && (m == a || m == b)
  {
    if a >= b then a else b
  }

  function Min(a: int, b: int): (m: int)
    ensures m <= a && m <= b && (m == a || m == b)
  {
    if a <= b then a else b
  }

  /** The value Previous writes: `max(1, index - 1)`. It is never below 1, never ahead of `index`, and either 1 or one step back. */
  function PreviousSlide(index: int): (r: int)
    ensures r >= 1
    ensures index >= 1 ==> r <= index
    ensures r == 1 || r == index - 1
  {
    Max(1, index - 1)
  }

  /** The value Next writes: `min(len(images), index + 1)`. It is never above `count`, never behind `index` in range, and either `count` or one step on. */
  function NextSlide(count: nat, index: int): (r: int)
    ensures r <= count
    ensures index <= count ==> r >= index
    ensures r == count || r == index + 1
  {
    Min(count, index + 1)
  }

  /** Previous never goes below 1, and from a slider position in range it stays in range. */
  lemma PreviousInRange(count: nat, index: int)
    requires 1 <= index <= count
    ensures 1 <= PreviousSlide(index) <= count
    ensures PreviousSlide(index) == if index == 1 then 1 else index - 1
  {
  }

  /** Next never goes above the image count, and from a slider position in range it stays in range. */
  lemma NextInRange(count: nat, index: int)
    requires 1 <= index <= count
    ensures 1 <= NextSlide(count, index) <= count
    ensures NextSlide(count, index) == if index == count then count else index + 1
  {
  }

  /** At the lower bound Previous leaves the position where it is. */
  lemma PreviousFixedAtFirst()
    ensures PreviousSlide(1) == 1
  {
  }

  /** At the upper bound Next leaves the position where it is. */
  lemma NextFixedAtLast(count: nat)
    requires count >= 1
    ensures NextSlide(count, count) == count
  {
  }

  /** The image the slider position selects: `images[index - 1]`. */
  function ShownImage(images: seq<string>, index: int): (name: string)
    requires 1 <= index <= |images|
    ensures name in images
  {
    images[index - 1]
  }

  /** The URL fetched for the shown image: its last path segment is the caption and download name. */
  function ShownUrl(images: seq<string>, index: int): (url: string)
    requires 1 <= index <= |images|
    ensures |url| > |Config.RawBaseUrl|
    ensures url[|Config.RawBaseUrl| + 1..] == images[index - 1]
  {
    Config.ImageUrl(ShownImage(images, index))
  }

  /** The slideshow fetches the same URL the grid links for that image, at column (index - 1) % 3, row (index - 1) / 3. */
  lemma SlideshowUrlIsGridCellUrl(images: seq<string>, index: int)
    requires 1 <= index <= |images|
    ensures (index - 1) / GalleryGrid.ColumnCount < |GalleryGrid.Column(images, GalleryGrid.ColumnOf(index - 1))|
    ensures ShownUrl(images, index) ==
      GalleryGrid.Column(images, GalleryGrid.ColumnOf(index - 1))[(index - 1) / GalleryGrid.ColumnCount].url
  {
    GalleryGrid.PlacedAt(images, index - 1);
  }

  /** The slider starts at 1, which is in range whenever the slideshow is reached, and so shows the first image. */
  lemma SliderDefaultShowsFirst(images: seq<string>)
    requires |images| >= 1
    ensures 1 <= SliderDefault <= |images|
    ensures ShownImage(images, SliderDefault) == images[0]
  {
  }

  /** Running the slider over 1..N shows every image of the listing once, in listing order. */
  lemma SliderCoversListing(images: seq<string>)
    requires |images| >= 1
    ensures seq(|images|, k requires 0 <= k < |images| => ShownImage(images, k + 1)) == images
  {
  }

  /** The two navigation buttons. */
  datatype Button = PreviousButton | NextButton

  /** One click: the button pressed and the slider position at that render. */
  datatype Click = Click(button: Button, index: int)

  /** The value a click writes under "slide": it depends on the button and the slider position only. */
  function ClickValue(count: nat, click: Click): (r: int)
    ensures 1 <= click.index <= count ==> 1 <= r <= count
  {
    match click.button
    case PreviousButton => PreviousSlide(click.index)
    case NextButton => NextSlide(count, click.index)
  }

  /** The session dictionary after one click: "slide" is set, every other entry is kept. */
  function Step(count: nat, session: map<string, int>, click: Click): (r: map<string, int>)
    ensures r.Keys == session.Keys + {SlideKey}
    ensures r[SlideKey] == ClickValue(count, click)
    ensures forall key :: key in session && key != SlideKey ==> r[key] == session[key]
  {
    session[SlideKey := ClickValue(count, click)]
  }

  /**
   * The session dictionary after a sequence of clicks, one per render. The
   * stored value is the last click's alone: no click reads what an earlier one wrote.
   */
  function Run(count: nat, session: map<string, int>, clicks: seq<Click>): (r: map<string, int>)
    ensures r.Keys == if clicks == [] then session.Keys else session.Keys + {SlideKey}
    ensures clicks != [] ==> r[SlideKey] == ClickValue(count, clicks[|clicks| - 1])
    ensures forall key :: key in session && key != SlideKey ==> r[key] == session[key]
    decreases |clicks|
  {
    if clicks == [] then session else Run(count, Step(count, session, clicks[0]), clicks[1..])
  }

  /** The stored position, when one has been written, lies in [1, count]. */
  predicate StoredInRange(count: nat, session: map<string, int>)
  {
    SlideKey in session ==> 1 <= session[SlideKey] <= count
  }

  predicate SliderInRange(count: nat, clicks: seq<Click>)
  {
    forall j :: 0 <= j < |clicks| ==> 1 <= clicks[j].index <= count
  }

  /**
   * Whatever buttons are clicked, as long as the slider keeps its bounds the
   * stored position stays in [1, count], and only the "slide" entry changes.
   */
  lemma {:induction false} RunKeepsRange(count: nat, session: map<string, int>, clicks: seq<Click>)
    requires count >= 1
    requires StoredInRange(count, session)
    requires SliderInRange(count, clicks)
    ensures StoredInRange(count, Run(count, session, clicks))
    ensures forall key :: key in session && key != SlideKey ==>
      key in Run(count, session, clicks) && Run(count, session, clicks)[key] == session[key]
    ensures clicks != [] ==> SlideKey in Run(count, session, clicks)
    decreases |clicks|
  {
    if clicks != [] {
      var next := Step(count, session, clicks[0]);
      PreviousInRange(count, clicks[0].index);
      NextInRange(count, clicks[0].index);
      assert SliderInRange(count, clicks[1..]) by {
        forall j | 0 <= j < |clicks[1..]| ensures 1 <= clicks[1..][j].index <= count {
          assert clicks[1..][j] == clicks[j + 1];
        }
      }
      RunKeepsRange(count, next, clicks[1..]);
    }
  }

  /** With three images: Previous at position 1 writes 1, Next at 2 writes 3, Next at 3 writes 3. */
  lemma ThreeImageClicks()
    ensures Run(3, map[], [Click(PreviousButton, 1)])[SlideKey] == 1
    ensures Run(3, map[], [Click(PreviousButton, 1), Click(NextButton, 2)])[SlideKey] == 3
    ensures Run(3, map[], [Click(NextButton, 2), Click(NextButton, 3)])[SlideKey] == 3
  {
  }

  /**
   * The navigation state of one session. `count` is the number of images,
   * fixed for the render; `session` is the session dictionary the buttons write.
   */
  class Navigator {
    const count: nat
    var session: map<string, int>

    ghost predicate Valid()
      reads this
    {
      count >= 1 && StoredInRange(count, session)
    }

    /** The slideshow is reached only with a non-empty listing. */
    constructor (n: nat)
      requires n >= 1
      ensures Valid() && count == n && session == map[]
    {
      count := n;
      session := map[];
    }

    /** The Previous button, pressed while the slider shows `index`. */
    method Previous(index: int)
      requires Valid() && 1 <= index <= count
      modifies this
      ensures Valid()
      ensures session == old(session)[SlideKey := PreviousSlide(index)]
      ensures session == Step(count, old(session), Click(PreviousButton, index))
    {
      PreviousInRange(count, index);
      session := session[SlideKey := Max(1, index - 1)];
    }

    /** The Next button, pressed while the slider shows `index`. */
    method Next(index: int)
      requires Valid() && 1 <= index <= count
      modifies this
      ensures Valid()
      ensures session == old(session)[SlideKey := NextSlide(count, index)]
      ensures session == Step(count, old(session), Click(NextButton, index))
    {
      NextInRange(count, index);
      session := session[SlideKey := Min(count, index + 1)];
    }
  }
}
