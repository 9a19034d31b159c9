/** `ScrollBar` (ui/scrollbar.py): a horizontal track with a thumb the
    user drags; a drag that would push the thumb out of the track is undone. */
module ScrollBars {
  import opened Wrappers
  import opened Numerics
  import opened Geometry

  /** Line 47: the track is centred on `position`, corners rounded half to
      even. */
  function TrackRect(position: Point, width: int, height: int): (r: Rect)
    ensures r.w == width && r.h == height
    ensures r.x == RoundHalfEven(position.x as real - width as real * 0.5)
    ensures r.y == RoundHalfEven(position.y as real - height as real * 0.5)
    ensures 2 * r.x - 1 <= 2 * position.x - width <= 2 * r.x + 1
    ensures 2 * r.y - 1 <= 2 * position.y - height <= 2 * r.y + 1
  {
    var x := RoundHalfEven(position.x as real - width as real * 0.5);
    var y := RoundHalfEven(position.y as real - height as real * 0.5);
    RoundHalfEvenOfWhole(width);
    RoundHalfEvenOfWhole(height);
    Rect(x, y, width, height)
  }

  /** Line 57: the thumb width `track.width / (scroll_length + 1000) * track.width`,
      from the length as passed in and truncated by `pygame.Rect`; `None` is
      the ZeroDivisionError. */
  function ThumbWidth(trackWidth: int, scrollLength: int): (r: Option<int>)
    ensures r.None? <==> scrollLength == -1000
    ensures 0 <= trackWidth && 0 < scrollLength + 1000 ==> r.Some? && 0 <= r.value
    ensures 0 <= trackWidth && 0 < scrollLength + 1000 && trackWidth <= scrollLength + 1000 ==>
              r.Some? && r.value <= trackWidth
  {
    if scrollLength + 1000 == 0 then None
    else
      var w := trackWidth as real / (scrollLength + 1000) as real * trackWidth as real;
      QuotientBound(trackWidth, scrollLength + 1000);
      Some(Truncate(w))
  }

  /** `(w / d) * w` lies between 0 and `w` when `0 <= w <= d`. */
  lemma QuotientBound(w: int, d: int)
    requires d != 0
    ensures 0 <= w && 0 < d ==> 0.0 <= w as real / d as real * w as real
    ensures 0 <= w <= d ==> w as real / d as real * w as real <= w as real
  {
    if 0 <= w <= d {
      var q := w as real / d as real;
      assert q * d as real == w as real;
      assert (1.0 - q) * d as real == d as real - w as real >= 0.0;
      assert 0.0 <= q <= 1.0;
      assert (1.0 - q) * w as real >= 0.0;
      assert q * w as real <= 1.0 * w as real;
    }
  }

  /** Lines 61-64: pixels of content per pixel of thumb travel, again from
      the length as passed in; zero unless the track is wider than the thumb. */
  function ScrollAmount(track: Rect, thumb: Rect, scrollLength: int): (r: real)
    ensures track.w <= thumb.w ==> r == 0.0
    ensures track.w > thumb.w ==> r * (track.w - thumb.w) as real == scrollLength as real
  {
    if track.w > thumb.w then scrollLength as real / (track.w - thumb.w) as real else 0.0
  }

  class ScrollBar {
    /** `self.scroll_length`, raised to at least the track width plus one. */
    const scrollLength: int
    const track: Rect
    const scrollAmount: real
    /** The thumb's width, fixed at construction. */
    const thumbWidth: int
    var thumb: Rect
    var scrollPosition: real
    var wasClicked: bool
    /** `self.last_mouse_position`; it does not exist before the first `check`. */
    var lastMousePosition: Option<Point>

    /** The thumb stays on the track's row with its first size, and a drag is
        only ever in progress after some `check` recorded a mouse position. */
    ghost predicate Valid()
      reads this`thumb, this`wasClicked, this`lastMousePosition
    {
      && thumb.y == track.y && thumb.w == thumbWidth && thumb.h == track.h
      && (wasClicked ==> lastMousePosition.Some?)
    }

    /** `__init__`; it raises ZeroDivisionError for a scroll length of -1000,
        which the factory `Create` reports. */
    constructor (position: Point, width: int, height: int, scrollLength: int, scrollPosition: int)
      requires scrollLength + 1000 != 0
      ensures Valid()
      ensures this.scrollLength == if scrollLength > width + 1 then scrollLength else width + 1
      ensures track == TrackRect(position, width, height)
      ensures thumb == Rect(track.x + scrollPosition, track.y, ThumbWidth(width, scrollLength).value, height)
      ensures scrollAmount == ScrollAmount(track, thumb, scrollLength)
      ensures this.scrollPosition == scrollPosition as real
      ensures !wasClicked && lastMousePosition == None
    {
      this.scrollLength := if scrollLength > width + 1 then scrollLength else width + 1;
      this.scrollPosition := scrollPosition as real;
      var t := TrackRect(position, width, height);
      track := t;
      var w := ThumbWidth(t.w, scrollLength).value;
      thumbWidth := w;
      thumb := Rect(t.x + scrollPosition, t.y, w, t.h);
      wasClicked := false;
      scrollAmount := ScrollAmount(t, Rect(t.x + scrollPosition, t.y, w, t.h), scrollLength);
      lastMousePosition := None;
    }

    /** The constructor with its error path: ZeroDivisionError exactly when
        `scroll_length + 1000` is zero. */
    static method Create(position: Point, width: int, height: int, scrollLength: int, scrollPosition: int)
      returns (r: Result<ScrollBar>)
      ensures r.Err? <==> scrollLength == -1000
      ensures r.Err? ==> r.error == ZeroDivisionError
      ensures r.Ok? ==> fresh(r.value) && r.value.Valid() && !r.value.wasClicked
      ensures r.Ok? ==> r.value.scrollLength >= width + 1 && r.value.scrollLength >= scrollLength
      ensures r.Ok? ==> r.value.scrollPosition == scrollPosition as real
    {
      if scrollLength + 1000 == 0 {
        return Err(ZeroDivisionError);
      }
      var bar := new ScrollBar(position, width, height, scrollLength, scrollPosition);
      return Ok(bar);
    }

    /** `check`: during a drag, hand the event to the drag handler; otherwise
        a click on the thumb starts a drag without moving anything. Either
        way the mouse position is recorded last. */
    method Check(mouse: Point, clicked: bool)
      requires Valid()
      modifies this`thumb, this`scrollPosition, this`wasClicked, this`lastMousePosition
      ensures Valid()
      ensures lastMousePosition == Some(mouse)
      ensures !old(wasClicked) ==>
                thumb == old(thumb) && scrollPosition == old(scrollPosition) &&
                wasClicked == (clicked && CollidePoint(thumb, mouse))
      ensures old(wasClicked) && !clicked ==>
                !wasClicked && thumb == old(thumb) && scrollPosition == old(scrollPosition)
      ensures old(wasClicked) && clicked ==>
                wasClicked && Dragged(old(thumb), old(scrollPosition), mouse.x - old(lastMousePosition).value.x, thumb, scrollPosition)
      ensures old(Contains(track, thumb)) ==> Contains(track, thumb)
    {
      if wasClicked {
        HandleScrollBarDrag(mouse, clicked);
      } else if clicked && CollidePoint(thumb, mouse) {
        wasClicked := true;
      }
      lastMousePosition := Some(mouse);
    }

    /** `_handle_scroll_bar_drag`: a held button moves the thumb, a released
        one ends the drag. */
    method HandleScrollBarDrag(mouse: Point, clicked: bool)
      requires Valid() && wasClicked
      modifies this`thumb, this`scrollPosition, this`wasClicked
      ensures Valid()
      ensures clicked ==>
                wasClicked && Dragged(old(thumb), old(scrollPosition), mouse.x - lastMousePosition.value.x, thumb, scrollPosition)
      ensures !clicked ==> !wasClicked && thumb == old(thumb) && scrollPosition == old(scrollPosition)
    {
      if clicked {
        UpdateScrollBarPosition(mouse);
      } else {
        wasClicked := false;
      }
    }

    /** One drag step by `dx`: either the moved thumb lies inside the track
        and the content scrolled back by `scrollAmount * dx`, or the thumb
        would have left the track and both are as they were. */
    ghost predicate Dragged(thumb0: Rect, position0: real, dx: int, thumb1: Rect, position1: real) {
      if Contains(track, Move(thumb0, dx, 0)) then
        thumb1 == Move(thumb0, dx, 0) && position1 == position0 - scrollAmount * dx as real
      else
        thumb1 == thumb0 && position1 == position0
    }

    /** `_update_scroll_bar_position`: move the thumb and the scroll position,
        then move both back if the thumb left the track. */
    method UpdateScrollBarPosition(mouse: Point)
      requires Valid() && lastMousePosition.Some?
      modifies this`thumb, this`scrollPosition
      ensures Valid()
      ensures Dragged(old(thumb), old(scrollPosition), mouse.x - lastMousePosition.value.x, thumb, scrollPosition)
    {
      var dx := mouse.x - lastMousePosition.value.x;
      thumb := Move(thumb, dx, 0);
      scrollPosition := scrollPosition - scrollAmount * dx as real;
      if !Contains(track, thumb) {
        MoveBack(old(thumb), dx, 0);
        thumb := Move(thumb, -dx, 0);
        scrollPosition := scrollPosition + scrollAmount * dx as real;
      }
    }

    /** `get_notch_position`: the stored scroll position (a real, as the
        float arithmetic above makes it). */
    function GetNotchPosition(): (r: real)
      reads this`scrollPosition
      ensures r == scrollPosition
    {
      scrollPosition
    }
  }
}
