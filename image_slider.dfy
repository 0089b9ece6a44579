/** The navigation state of the image slider: which image is active, whether
    a mouse drag is in progress and where it started, and the window of nine
    thumbnails centred on the active image. */
module Slider {
  import JsNumber

  /** One gallery image; `id` is the key the slider compares. */
  datatype ImageData = ImageData(id: int, imageUrl: string, photographer: string, category: string)

  /** A pointer position in viewport coordinates. */
  datatype Point = Point(x: int, y: int)

  /** A JavaScript array read: `None` where JavaScript yields `undefined`. */
  datatype Option<T> = None | Some(value: T)

  const VisibleThumbnails: nat := 9
  const HalfVisibleThumbnails: nat := VisibleThumbnails / 2
  /** Below this viewport width thumbnails run horizontally. */
  const LayoutBreakpoint: int := 1400
  /** A thumbnail's width plus its margin, and a thumbnail's height. */
  const ThumbnailWidth: int := 116
  const ThumbnailHeight: int := 100
  const BaseThumbnailClass: string := "m-2 hover:opacity-75 object-contain max-w-100px thumbnail-image"
  const ActiveThumbnailClass: string := BaseThumbnailClass + " mb-4 mt-4 shadow-border-active thumbnail-image"

  /** Images whose ids are pairwise different. */
  ghost predicate UniqueIds(images: seq<ImageData>) {
    forall p, q :: 0 <= p < q < |images| ==> images[p].id != images[q].id
  }

  // ---------------------------------------------------------------------
  // Facts about Dafny's (Euclidean) remainder

  /** Reducing the left summand first does not change the remainder of a sum. */
  lemma ModAddLeft(a: int, b: int, n: int)
    requires n > 0
    ensures ((a % n) + b) % n == (a + b) % n
  {
    var c := a % n + b;
    JsNumber.EuclidUnique(a, n, a / n, a % n);
    JsNumber.EuclidUnique(c, n, c / n, c % n);
    assert a + b == (a / n + c / n) * n + c % n;
    JsNumber.EuclidUnique(a + b, n, a / n + c / n, c % n);
  }

  /** Adding `m` to an index in range brings it back to itself exactly when
      `m` is a multiple of `n`. */
  lemma ModShiftBack(index: int, m: int, n: int)
    requires n > 0 && 0 <= index < n
    ensures (index + m) % n == index <==> m % n == 0
  {
    ModAddLeft(m, index, n);
    var c := m % n + index;
    if c < n {
      JsNumber.EuclidUnique(c, n, 0, c);
    } else {
      JsNumber.EuclidUnique(c, n, 1, c - n);
    }
  }

  // ---------------------------------------------------------------------
  // Index arithmetic

  /** The index update of a drag step: the JavaScript remainder of
      `index + skip`, shifted up by `n` when negative. For every integer
      `skip` it is the mathematical `(index + skip) mod n`. */
  function WrapIndex(index: int, skip: int, n: int): (r: int)
    requires n > 0
    ensures 0 <= r < n
    ensures r == (index + skip) % n
  {
    var newIndex := JsNumber.Rem(index + skip, n);
    JsNumber.RemAgreesWithMod(index + skip, n);
    if newIndex < 0 then n + newIndex else newIndex
  }

  /** The direction of one wheel event: forward for a positive `deltaY`,
      backward for every other value, zero included. */
  function WheelDirection(deltaY: int): (step: int)
    ensures step == 1 || step == -1
    ensures step == 1 <==> deltaY > 0
  {
    if deltaY > 0 then 1 else -1
  }

  /** The index after one wheel event: the next image after a positive
      `deltaY`, the previous one otherwise, wrapping at both ends. */
  function WheelIndex(index: int, deltaY: int, n: int): (r: int)
    requires n > 0 && 0 <= index < n
    ensures 0 <= r < n
    ensures r == (index + WheelDirection(deltaY)) % n
    ensures deltaY > 0 ==> r == (if index == n - 1 then 0 else index + 1)
    ensures deltaY <= 0 ==> r == (if index == 0 then n - 1 else index - 1)
  {
    if deltaY > 0 then
      JsNumber.RemAgreesWithMod(index + 1, n);
      if index == n - 1 then JsNumber.EuclidUnique(index + 1, n, 1, 0); JsNumber.Rem(index + 1, n)
      else JsNumber.EuclidUnique(index + 1, n, 0, index + 1); JsNumber.Rem(index + 1, n)
    else
      JsNumber.RemAgreesWithMod(index - 1 + n, n);
      ModAddLeft(n, index - 1, n);
      if index == 0 then JsNumber.EuclidUnique(n - 1, n, 0, n - 1); JsNumber.Rem(index - 1 + n, n)
      else JsNumber.EuclidUnique(index - 1 + n, n, 1, index - 1); JsNumber.Rem(index - 1 + n, n)
  }

  /** The index after a series of wheel events, applied in order. */
  function Scrolls(index: int, deltas: seq<int>, n: int): (r: int)
    requires n > 0 && 0 <= index < n
    ensures 0 <= r < n
    decreases |deltas|
  {
    if deltas == [] then index else Scrolls(WheelIndex(index, deltas[0], n), deltas[1..], n)
  }

  /** Forward events minus backward events in a series of wheel events. */
  function NetSteps(deltas: seq<int>): int
    decreases |deltas|
  {
    if deltas == [] then 0 else WheelDirection(deltas[0]) + NetSteps(deltas[1..])
  }

  /** A series of wheel events moves the index by its net number of steps,
      modulo the number of images. */
  lemma {:induction false} ScrollsNet(index: int, deltas: seq<int>, n: int)
    requires n > 0 && 0 <= index < n
    ensures Scrolls(index, deltas, n) == (index + NetSteps(deltas)) % n
    decreases |deltas|
  {
    if deltas == [] {
      JsNumber.EuclidUnique(index, n, 0, index);
    } else {
      var step := WheelDirection(deltas[0]);
      var next := WheelIndex(index, deltas[0], n);
      ScrollsNet(next, deltas[1..], n);
      ModAddLeft(index + step, NetSteps(deltas[1..]), n);
    }
  }

  /** A series of only forward wheel events has as many net steps as events. */
  lemma {:induction false} NetStepsAllForward(deltas: seq<int>)
    requires forall k :: 0 <= k < |deltas| ==> deltas[k] > 0
    ensures NetSteps(deltas) == |deltas|
    decreases |deltas|
  {
    if deltas != [] {
      NetStepsAllForward(deltas[1..]);
    }
  }

  /** As many forward wheel events as there are images bring the slider back
      to the image it started from. */
  lemma ForwardCycle(index: int, deltas: seq<int>, n: int)
    requires n > 0 && 0 <= index < n
    requires |deltas| == n && forall k :: 0 <= k < |deltas| ==> deltas[k] > 0
    ensures Scrolls(index, deltas, n) == index
  {
    ScrollsNet(index, deltas, n);
    NetStepsAllForward(deltas);
    ModShiftBack(index, n, n);
    JsNumber.EuclidUnique(n, n, 1, 0);
  }

  /** A forward wheel event followed by any non-forward one, and the other
      way round, leave the index where it was. */
  lemma ForwardThenBack(index: int, forward: int, back: int, n: int)
    requires n > 0 && 0 <= index < n
    requires forward > 0 && back <= 0
    ensures WheelIndex(WheelIndex(index, forward, n), back, n) == index
    ensures WheelIndex(WheelIndex(index, back, n), forward, n) == index
  {
  }

  // ---------------------------------------------------------------------
  // Drag steps

  /** Whether the layout is the horizontal one, chosen afresh on each move. */
  predicate HorizontalLayout(innerWidth: int) {
    innerWidth < LayoutBreakpoint
  }

  /** The number of thumbnails a drag from `start` to the pointer covers:
      along x in the horizontal layout, along y otherwise, rounded to the
      nearest whole thumbnail. Dragging toward smaller coordinates is
      positive, that is, forward. */
  function DragSkip(start: Point, clientX: int, clientY: int, innerWidth: int): (skip: int)
    ensures HorizontalLayout(innerWidth) ==>
      2 * ThumbnailWidth * skip - ThumbnailWidth <= 2 * (start.x - clientX) < 2 * ThumbnailWidth * skip + ThumbnailWidth
    ensures !HorizontalLayout(innerWidth) ==>
      2 * ThumbnailHeight * skip - ThumbnailHeight <= 2 * (start.y - clientY) < 2 * ThumbnailHeight * skip + ThumbnailHeight
    ensures HorizontalLayout(innerWidth) ==> (skip == 0 <==> -58 <= start.x - clientX < 58)
    ensures !HorizontalLayout(innerWidth) ==> (skip == 0 <==> -50 <= start.y - clientY < 50)
    ensures HorizontalLayout(innerWidth) ==> (skip > 0 <==> start.x - clientX >= 58)
    ensures !HorizontalLayout(innerWidth) ==> (skip > 0 <==> start.y - clientY >= 50)
  {
    if HorizontalLayout(innerWidth) then
      JsNumber.RoundDiv(start.x - clientX, ThumbnailWidth)
    else
      JsNumber.RoundDiv(start.y - clientY, ThumbnailHeight)
  }

  // ---------------------------------------------------------------------
  // The thumbnail window

  /** JavaScript's `images[k]`. */
  function ReadIndex(images: seq<ImageData>, k: int): Option<ImageData> {
    if 0 <= k < |images| then Some(images[k]) else None
  }

  /** The thumbnail window as the component computes it: slot `i` reads
      `images[(start + i + n) % n]` with JavaScript's `%`, which is negative
      when `start + i + n` is negative and not a multiple of `n`. */
  function VisibleImagesAsWritten(images: seq<ImageData>, index: int): (r: seq<Option<ImageData>>)
    requires |images| > 0
    ensures |r| == VisibleThumbnails
  {
    var start := index - HalfVisibleThumbnails;
    seq(VisibleThumbnails, i => ReadIndex(images, JsNumber.Rem(start + i + |images|, |images|)))
  }

  /** What each slot of the window as written holds: `undefined` exactly
      where JavaScript's remainder goes negative, and otherwise the image
      `i - 4` places from the active one, wrapping circularly. */
  lemma AsWrittenSlots(images: seq<ImageData>, index: int, i: int)
    requires |images| > 0 && 0 <= i < VisibleThumbnails
    ensures var x := index - HalfVisibleThumbnails + i + |images|;
      VisibleImagesAsWritten(images, index)[i].None? <==> x < 0 && x % |images| != 0
    ensures VisibleImagesAsWritten(images, index)[i].Some? ==>
      VisibleImagesAsWritten(images, index)[i].value == images[(index - HalfVisibleThumbnails + i) % |images|]
  {
    var n := |images|;
    var x := index - HalfVisibleThumbnails + i + n;
    assert VisibleImagesAsWritten(images, index)[i] == ReadIndex(images, JsNumber.Rem(x, n));
    JsNumber.RemAgreesWithMod(x, n);
    ModAddLeft(n, index - HalfVisibleThumbnails + i, n);
    JsNumber.EuclidUnique(n, n, 1, 0);
    if x < 0 && x % n == 0 {
      assert JsNumber.Rem(x, n) == 0;
    }
  }

  /** With two or three images, the very first window (active index 0)
      already has an `undefined` slot. */
  lemma AsWrittenHoleWithFewImages(images: seq<ImageData>)
    requires 2 <= |images| <= 3
    ensures None in VisibleImagesAsWritten(images, 0)
  {
    var n := |images|;
    var i := if n == 3 then 0 else 1;
    AsWrittenSlots(images, 0, i);
    JsNumber.EuclidUnique(-1, n, -1, n - 1);
    assert VisibleImagesAsWritten(images, 0)[i] == None;
  }

  /** The thumbnail window with every slot wrapped into range: slot `i` is
      the image `i - 4` places from `index`, circularly, for any number of
      images. Slot indices are computed with the same remainder-and-shift
      idiom as the drag step. */
  function VisibleWindow(images: seq<ImageData>, index: int): (r: seq<ImageData>)
    requires |images| > 0
    ensures |r| == VisibleThumbnails
    ensures forall i :: 0 <= i < VisibleThumbnails ==>
      r[i] == images[(index - HalfVisibleThumbnails + i) % |images|]
    ensures 0 <= index < |images| ==> r[HalfVisibleThumbnails] == images[index]
  {
    var start := index - HalfVisibleThumbnails;
    var r := seq(VisibleThumbnails, i => images[WrapIndex(start, i, |images|)]);
    assert forall i :: 0 <= i < VisibleThumbnails ==> r[i] == images[WrapIndex(start, i, |images|)];
    if 0 <= index < |images| then
      JsNumber.EuclidUnique(index, |images|, 0, index);
      r
    else
      r
  }

  /** With one image, or with four or more, no slot of the window as written
      is `undefined`, and it is exactly the wrapped window. */
  lemma AsWrittenAgrees(images: seq<ImageData>, index: int)
    requires |images| == 1 || |images| >= 4
    requires 0 <= index < |images|
    ensures forall i :: 0 <= i < VisibleThumbnails ==>
      VisibleImagesAsWritten(images, index)[i] == Some(VisibleWindow(images, index)[i])
  {
    forall i | 0 <= i < VisibleThumbnails
      ensures VisibleImagesAsWritten(images, index)[i] == Some(VisibleWindow(images, index)[i])
    {
      AsWrittenSlots(images, index, i);
      if |images| == 1 {
        JsNumber.EuclidUnique(index - HalfVisibleThumbnails + i + 1, 1, index - HalfVisibleThumbnails + i + 1, 0);
      }
    }
  }

  /** When there are at least as many images as slots and their ids are
      unique, no image shows twice in the window. */
  lemma WindowDistinct(images: seq<ImageData>, index: int)
    requires |images| >= VisibleThumbnails && UniqueIds(images)
    ensures forall i, j :: 0 <= i < j < VisibleThumbnails ==>
      VisibleWindow(images, index)[i].id != VisibleWindow(images, index)[j].id
  {
    var n := |images|;
    var w := VisibleWindow(images, index);
    forall i, j | 0 <= i < j < VisibleThumbnails
      ensures w[i].id != w[j].id
    {
      var a := (index - HalfVisibleThumbnails + i) % n;
      ModAddLeft(index - HalfVisibleThumbnails + i, j - i, n);
      ModShiftBack(a, j - i, n);
      JsNumber.EuclidUnique(j - i, n, 0, j - i);
    }
  }

  // ---------------------------------------------------------------------
  // Rendering helpers

  /** The class of a thumbnail: the active class exactly when the thumbnail's
      id is the active image's, the base class otherwise. */
  function ThumbnailClassName(images: seq<ImageData>, activeIndex: int, image: ImageData): (r: string)
    requires 0 <= activeIndex < |images|
    ensures r == ActiveThumbnailClass <==> image.id == images[activeIndex].id
    ensures r == BaseThumbnailClass <==> image.id != images[activeIndex].id
  {
    if image.id == images[activeIndex].id then ActiveThumbnailClass else BaseThumbnailClass
  }

  /** With unique ids, slot `k` of the window is highlighted exactly when it
      lies a multiple of `n` away from the centre; with nine or more images
      only the centre is. */
  lemma HighlightedSlots(images: seq<ImageData>, index: int, k: int)
    requires UniqueIds(images) && 0 <= index < |images| && 0 <= k < VisibleThumbnails
    ensures ThumbnailClassName(images, index, VisibleWindow(images, index)[k]) == ActiveThumbnailClass
        <==> (k - HalfVisibleThumbnails) % |images| == 0
    ensures |images| >= VisibleThumbnails ==>
      (ThumbnailClassName(images, index, VisibleWindow(images, index)[k]) == ActiveThumbnailClass <==> k == HalfVisibleThumbnails)
  {
    var n := |images|;
    ModShiftBack(index, k - HalfVisibleThumbnails, n);
    assert index + (k - HalfVisibleThumbnails) == index - HalfVisibleThumbnails + k;
    if n >= VisibleThumbnails && k != HalfVisibleThumbnails {
      if k > HalfVisibleThumbnails {
        JsNumber.EuclidUnique(k - HalfVisibleThumbnails, n, 0, k - HalfVisibleThumbnails);
      } else {
        JsNumber.EuclidUnique(k - HalfVisibleThumbnails, n, -1, n + k - HalfVisibleThumbnails);
      }
    }
  }

  /** The number the counter shows for the active image, `activeIndex + 1`:
      always between 1 and the number of images. */
  function CounterValue(activeIndex: int, n: int): (r: int)
    requires 0 <= activeIndex < n
    ensures 1 <= r <= n
    ensures r == n <==> activeIndex == n - 1
  {
    activeIndex + 1
  }

  // ---------------------------------------------------------------------
  // The component state and its event handlers

  /** The slider's state. `images` is fixed for the life of a slider; a new
      section remounts it, which is modelled by constructing a new one. */
  class ImageSlider {
    const images: seq<ImageData>
    var activeIndex: int
    var isDragging: bool
    var startPosition: Point
    var visibleImages: seq<ImageData>

    /** The active index is always a valid index and the thumbnail window
        is always the one centred on it. */
    ghost predicate Valid()
      reads this
    {
      && |images| > 0
      && 0 <= activeIndex < |images|
      && visibleImages == VisibleWindow(images, activeIndex)
    }

    /** Mount: the first image is active, no drag is in progress, the drag
        origin is (0, 0), and the window is centred on the first image. */
    constructor (images: seq<ImageData>)
      requires |images| > 0
      ensures Valid()
      ensures this.images == images
      ensures activeIndex == 0 && !isDragging && startPosition == Point(0, 0)
      ensures visibleImages == VisibleWindow(images, 0)
    {
      this.images := images;
      activeIndex := 0;
      isDragging := false;
      startPosition := Point(0, 0);
      visibleImages := VisibleWindow(images, 0);
    }

    /** The image shown large: the one in the centre slot of the window. */
    function ActiveImage(): (r: ImageData)
      reads this
      requires Valid()
      ensures r == visibleImages[HalfVisibleThumbnails]
      ensures r in visibleImages
    {
      images[activeIndex]
    }

    /** Changes the active index and, as the component's effect does right
        after, recomputes the window for it. */
    method SetActiveIndex(newIndex: int)
      requires |images| > 0 && 0 <= newIndex < |images|
      modifies this`activeIndex, this`visibleImages
      ensures Valid()
      ensures activeIndex == newIndex
    {
      activeIndex := newIndex;
      visibleImages := VisibleWindow(images, activeIndex);
    }

    /** Mouse-down starts a drag at the pointer. */
    method MouseDown(clientX: int, clientY: int)
      requires Valid()
      modifies this`isDragging, this`startPosition
      ensures Valid()
      ensures isDragging && startPosition == Point(clientX, clientY)
    {
      isDragging := true;
      startPosition := Point(clientX, clientY);
    }

    /** Mouse-up ends the drag and touches nothing else. */
    method MouseUp()
      requires Valid()
      modifies this`isDragging
      ensures Valid()
      ensures !isDragging
    {
      isDragging := false;
    }

    /** The pointer leaving the slider ends the drag and touches nothing else. */
    method MouseLeave()
      requires Valid()
      modifies this`isDragging
      ensures Valid()
      ensures !isDragging
    {
      isDragging := false;
    }

    /** A mouse move. Without a drag in progress nothing changes. During a
        drag, the distance from the drag origin along the layout's axis,
        rounded to whole thumbnails, is added to the active index modulo the
        number of images; when that count is not zero the origin's
        coordinate on that axis moves to the pointer and the other is kept,
        and when it is zero the origin stays where it was. */
    method MouseMove(clientX: int, clientY: int, innerWidth: int)
      requires Valid()
      modifies this`activeIndex, this`visibleImages, this`startPosition
      ensures Valid()
      ensures !old(isDragging) ==>
        activeIndex == old(activeIndex) && startPosition == old(startPosition)
      ensures old(isDragging) ==>
        var skip := DragSkip(old(startPosition), clientX, clientY, innerWidth);
        && activeIndex == (old(activeIndex) + skip) % |images|
        && startPosition == (if skip == 0 then old(startPosition)
                             else if HorizontalLayout(innerWidth) then old(startPosition).(x := clientX)
                             else old(startPosition).(y := clientY))
    {
      if !isDragging {
        return;
      }
      // A zero skip leaves the index, which is already its own residue.
      JsNumber.EuclidUnique(activeIndex, |images|, 0, activeIndex);
      if HorizontalLayout(innerWidth) {
        var currentX := clientX;
        var skipCountX := DragSkip(startPosition, currentX, clientY, innerWidth);
        if skipCountX != 0 {
          SetActiveIndex(WrapIndex(activeIndex, skipCountX, |images|));
          startPosition := startPosition.(x := currentX);
        }
      } else {
        var currentY := clientY;
        var skipCountY := DragSkip(startPosition, clientX, currentY, innerWidth);
        if skipCountY != 0 {
          SetActiveIndex(WrapIndex(activeIndex, skipCountY, |images|));
          startPosition := startPosition.(y := currentY);
        }
      }
    }

    /** A wheel event moves one image forward for a positive `deltaY` and one
        back otherwise, wrapping, whether or not a drag is in progress. */
    method Scroll(deltaY: int)
      requires Valid()
      modifies this`activeIndex, this`visibleImages
      ensures Valid()
      ensures activeIndex == (old(activeIndex) + WheelDirection(deltaY)) % |images|
      ensures activeIndex == WheelIndex(old(activeIndex), deltaY, |images|)
    {
      SetActiveIndex(WheelIndex(activeIndex, deltaY, |images|));
    }
  }
}
