# Image slider navigation, modelled in Dafny

This project models the navigation state of the gallery's `ImageSlider`
component. The component holds a non-empty list of images and tracks four
pieces of state:

- the active index;
- whether a mouse drag is in progress;
- the drag origin;
- a window of nine thumbnails centred on the active image.

Its mouse and wheel handlers turn pointer movement into index steps that wrap
around the list.

Files:

- `js_number.dfy`, module `JsNumber`: the two JavaScript number operations the component relies on, on integers. `Rem` is `%`, which truncates toward zero. `RoundDiv` is `Math.round(a / b)`. Each comes with lemmas tying it to Dafny's Euclidean arithmetic.
- `image_slider.dfy`, module `Slider`, in two parts:
  - Pure functions: the image record, index wrapping for drag and wheel steps, the drag step count, the thumbnail window (as written and corrected), the thumbnail class rule and the counter value. Lemmas about them: wrap-around, cycle closure, centre slot, distinctness, highlighted slots.
  - The class `ImageSlider`: the component's state as fields, with one method per event handler. Every method keeps `Valid()`: the index is in range and the window is the one centred on it.
- `slider_scenarios.dfy`, module `SliderScenarios`: client methods. They run event sequences and assert the outcomes that the handlers' contracts imply.

Inputs from outside the component are parameters:

- `window.innerWidth` is a parameter of `MouseMove`.
- The event fields `clientX`, `clientY` and `deltaY` are integer parameters of the handlers.

The slider is keyed by the first image's id (`src/App.tsx:35`), so switching
to a section whose first image's id differs remounts it.
The model covers this with the constructor: a new slider over the new list.

Some behaviour the component does not have:

- The component does not gate wheel input on an animation flag.
- The component applies no magnitude threshold to the wheel: any `deltaY <= 0`, zero included, steps backward.
- The component has no touch handling.
- The component keeps no accumulated sub-threshold drag offset.
- The component has no burst counter and no debounced re-key.

The thumbnail window always has nine slots.

## Model

| member | source | states |
|---|---|---|
| `JsNumber.Rem` | src/components/ImageSlider.tsx:51-52 | JavaScript `%` by a positive length: the result lies strictly between `-n` and `n`, has the dividend's sign, and differs from the dividend by a multiple of `n` |
| `JsNumber.RemAgreesWithMod` | src/components/ImageSlider.tsx:61-62 | a non-negative JavaScript remainder equals the mathematical `a mod n`; a negative one plus `n` equals it |
| `JsNumber.RoundDiv` | src/components/ImageSlider.tsx:48 | `Math.round(num / den)` is the integer `r` with `r - 1/2 <= num/den < r + 1/2`; it is zero exactly when `-den <= 2num < den`, and positive exactly when `2num >= den` |
| `JsNumber.RoundDivUnique` | src/components/ImageSlider.tsx:58 | any integer within half a step of `num / den` (half rounded up) is the rounding: the bounds determine the result |
| `Slider.WrapIndex` | src/components/ImageSlider.tsx:51-52 | the drag update (JavaScript remainder, then `+ length` if negative) is in `[0, n)` and equals the mathematical `(index + skip) mod n` for every integer skip |
| `Slider.WheelDirection` | src/components/ImageSlider.tsx:85 | a wheel event steps by +1 exactly when `deltaY > 0`, and by -1 for every other value, zero included |
| `Slider.WheelIndex` | src/components/ImageSlider.tsx:84-89 | a wheel event moves to the next image (the first after the last) when `deltaY > 0`, and to the previous one (the last before the first) otherwise; the result is `(index ± 1) mod n` and in range |
| `Slider.Scrolls` | src/components/ImageSlider.tsx:84-89 | a series of wheel events applied in order keeps the index in `[0, n)` |
| `Slider.ScrollsNet` | src/components/ImageSlider.tsx:84-89 | a series of wheel events moves the index by forward events minus backward events, modulo `n` |
| `Slider.ForwardCycle` | src/components/ImageSlider.tsx:85-86 | `n` forward wheel events return to the starting image |
| `Slider.ForwardThenBack` | src/components/ImageSlider.tsx:85-87 | forward then back, and back then forward, is the identity on the index |
| `Slider.DragSkip` | src/components/ImageSlider.tsx:45-58 | below width 1400: the x distance from the drag origin rounded to 116-unit thumbnails; otherwise: the y distance rounded to 100-unit thumbnails. It is zero exactly for x distances in `[-58, 58)` (y distances in `[-50, 50)`), and positive (forward) exactly when the pointer moved left/up by at least half a thumbnail |
| `Slider.VisibleImagesAsWritten` | src/components/ImageSlider.tsx:74-79 | the component's window computation always has nine slots |
| `Slider.AsWrittenSlots` | src/components/ImageSlider.tsx:77 | slot `i` of the window as written is `undefined` exactly when `index - 4 + i + n` is negative and not a multiple of `n`; every other slot is the image `(index - 4 + i) mod n` |
| `Slider.AsWrittenHoleWithFewImages` | src/components/ImageSlider.tsx:77-81 | with two or three images, the initial window (index 0) as written has an `undefined` slot |
| `Slider.VisibleWindow` | src/components/ImageSlider.tsx:74-79 | the corrected window has nine slots; slot `i` is `images[(index - 4 + i) mod n]` for any `n >= 1`, and the centre slot is the active image |
| `Slider.AsWrittenAgrees` | src/components/ImageSlider.tsx:74-79 | with one image, or with four or more, the window as written has no `undefined` slot and equals the corrected window |
| `Slider.WindowDistinct` | src/components/ImageSlider.tsx:136-143 | with unique ids and at least nine images, the nine thumbnails have pairwise different ids |
| `Slider.ThumbnailClassName` | src/components/ImageSlider.tsx:97-102 | a thumbnail gets the active class exactly when its id equals the active image's id, and the base class otherwise |
| `Slider.HighlightedSlots` | src/components/ImageSlider.tsx:97-102 | with unique ids, window slot `k` is highlighted exactly when `k - 4` is a multiple of `n`; with nine or more images, only the centre slot is |
| `Slider.CounterValue` | src/components/ImageSlider.tsx:130 | the counter shows a number in `[1, n]`, and shows `n` exactly for the last image |
| `Slider.ImageSlider.constructor` | src/components/ImageSlider.tsx:18-24 | on mount: index 0, not dragging, drag origin (0, 0), and the corrected window centred on index 0 (the intended line 81; see "## Findings") |
| `Slider.ImageSlider.ActiveImage` | src/components/ImageSlider.tsx:121-122 | the image shown large is the centre slot of the thumbnail window |
| `Slider.ImageSlider.SetActiveIndex` | src/components/ImageSlider.tsx:92-94 | after an index change the window is recomputed for the new index |
| `Slider.ImageSlider.MouseDown` | src/components/ImageSlider.tsx:27-33 | starts a drag and records both pointer coordinates as the origin; index and window are untouched |
| `Slider.ImageSlider.MouseUp` | src/components/ImageSlider.tsx:36-38 | ends the drag and changes nothing else |
| `Slider.ImageSlider.MouseLeave` | src/components/ImageSlider.tsx:69-71 | ends the drag and changes nothing else |
| `Slider.ImageSlider.MouseMove` | src/components/ImageSlider.tsx:41-66 | no change when not dragging. While dragging, the index becomes `(index + skip) mod n`. With a zero skip, the origin is kept. With a non-zero skip, only the active axis's origin coordinate moves to the pointer. The index stays in range |
| `Slider.ImageSlider.Scroll` | src/components/ImageSlider.tsx:84-89 | the index becomes `(index ± 1) mod n` by the sign of `deltaY`, whether or not a drag is in progress; the window follows |

## Left out

- `Slider.DragSkip`, `JsNumber.RoundDiv`: JavaScript numbers are floating point. The model uses integer coordinates and takes `diff / 116` and `diff / 100` as exact before rounding. Fractional pointer coordinates, a fractional `deltaY` and rounding error at very large coordinates are not modelled.
- Values that are `-0`: JavaScript's `%` gives `-0` for a negative exact multiple. As an array index and as a displayed number, `-0` acts as `0`, so it is modelled as `0`.
- An empty image list: the constructor requires at least one image. The component and its caller both read `images[0]`/`images[activeIndex]` unconditionally, so they fail on an empty list.
- `Slider.VisibleImagesAsWritten`: an `undefined` slot is modelled as `None`. The failure when rendering then reads `.id` of it is not modelled.
- `Slider.ImageSlider.constructor`, `Slider.ImageSlider.SetActiveIndex`: the class keeps the corrected window (`Slider.VisibleWindow`), not the window that lines 81 and 93 compute. For one image, or four or more, the two are equal (`Slider.AsWrittenAgrees`). For 2 or 3 images the class's state is the intended window, not the as-written one with its `undefined` slot (`Slider.VisibleImagesAsWritten`).
- React scheduling: stale handler closures, batched updates and effect timing. Each event sees the latest state, and the window is recomputed right after each index change.
- JSX rendering (src/components/ImageSlider.tsx:104-146): only what it computes is modelled, namely the large image, the counter value and the thumbnail class.
- Animations (`src/components/hooks/useAnimations.tsx`): tweens, DOM references and completion callbacks are presentation side effects.
- `Thumbnails.tsx`, `ImageCounter.tsx`, `MainImage.tsx`, `Header.tsx`, `Sections.tsx`: rendering only. Thumbnails' class rule is the same as `Slider.ThumbnailClassName`.
- `src/App.tsx`: static section data. Its remount by key is the constructor.
- `src/utils/utils.ts`: type declarations, modelled as the `ImageData` datatype.
- Wheel gating, touchpad thresholds, touch handlers, a drag-offset nudge, a burst counter and debounced re-keying: the code has none of these.

## Findings

| source | as written | input that shows it | evidently intended | confidence | as-written member | corrected member |
|---|---|---|---|---|---|---|
| src/components/ImageSlider.tsx:77 | slot `i` reads `images[(start + i + images.length) % images.length]` with `start = index - 4`. Adding the length once does not make the dividend non-negative when there are fewer than four images, and JavaScript's `%` then stays negative. | three images at mount (index 0): slot 0 reads `images[-1]`, which is `undefined`. Two images at mount: slot 1 does the same. The thumbnail render then reads `.id` of `undefined`. | every slot wraps into `[0, n)`, the same remainder-then-shift idiom as lines 51-52 | high; not executed | `Slider.AsWrittenHoleWithFewImages` (over `Slider.VisibleImagesAsWritten`) | `Slider.VisibleWindow` |

The class uses the corrected window. `Slider.AsWrittenAgrees` shows that the
two windows are the same for one image and for four or more.
