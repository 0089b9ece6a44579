/** Client code: event sequences whose outcomes follow from the handlers'
    contracts alone. */
module SliderScenarios {
  import opened Slider

  function Image(id: int): ImageData {
    ImageData(id, "", "", "")
  }

  /** A drag 40 units left stays below the threshold; continuing to 120 units
      from the same origin steps forward once and moves the origin; after
      mouse-up, moves change nothing. */
  method DragAcrossOneThumbnail() {
    var s := new ImageSlider([Image(1), Image(2), Image(3), Image(4), Image(5)]);
    s.MouseDown(300, 40);
    s.MouseMove(260, 40, 1000);
    assert s.activeIndex == 0 && s.startPosition == Point(300, 40);
    s.MouseMove(180, 90, 1000);
    assert s.activeIndex == 1 && s.startPosition == Point(180, 40);
    s.MouseUp();
    s.MouseMove(0, 0, 1000);
    assert s.activeIndex == 1 && s.startPosition == Point(180, 40);
  }

  /** On a wide viewport the vertical axis is used: dragging up 250 units
      rounds to three thumbnails, and from the last image that wraps. */
  method VerticalDragWraps() {
    var s := new ImageSlider([Image(1), Image(2), Image(3), Image(4), Image(5)]);
    s.Scroll(0);
    assert s.activeIndex == 4;
    s.MouseDown(10, 400);
    s.MouseMove(999, 150, 1600);
    assert s.activeIndex == 2 && s.startPosition == Point(10, 150);
    assert s.ActiveImage() == Image(3);
  }

  /** Stepping back from the first of five images gives the last; seven
      steps forward from the first give the third. */
  method WrapFromStart() {
    assert WrapIndex(0, -1, 5) == 4;
    assert WrapIndex(0, 7, 5) == 2;
    var s := new ImageSlider([Image(1), Image(2), Image(3), Image(4), Image(5)]);
    s.Scroll(-3);
    assert s.activeIndex == 4;
    s.Scroll(120);
    assert s.activeIndex == 0;
  }

  /** A new section mounts a new slider: whatever the old one's state, the
      new one starts at its first image with the window over its own list. */
  method SwitchSection() {
    var previous := new ImageSlider([Image(1), Image(2), Image(3), Image(4), Image(5)]);
    previous.Scroll(1);
    previous.MouseDown(5, 5);
    var section := [Image(10), Image(11), Image(12)];
    var s := new ImageSlider(section);
    assert s.activeIndex == 0 && !s.isDragging;
    assert s.visibleImages == VisibleWindow(section, 0);
    assert s.visibleImages[HalfVisibleThumbnails] == Image(10);
  }
}
