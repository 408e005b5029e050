/** The click-through overlay: a borderless form that polls the cursor every
    timer tick, repaints only when the cursor moved or the left button changed
    state, and paints a `CircleSize` x `CircleSize` ellipse around the cursor
    in the highlight or the click colour. The operating system's answers
    (cursor position, key state, window style) are inputs; `Invalidate` is a
    counter of repaint requests. */
module Overlay {
  import opened Primitives
  import opened Colors

  /** `System.Drawing.Point` */
  datatype Point = Point(x: int32, y: int32)

  /** What one timer tick reads from the system: `Cursor.Position` and the
      `short` that `GetAsyncKeyState(0x01)` (virtual key 0x01 is the left
      button) returns, as its 16 bits. */
  datatype Sample = Sample(position: Point, keyState: bv16)

  /** The bit of the key-state word that says "held down now". */
  const KeyDownMask: bv32 := 0x8000

  /** Diameter of the highlight, in pixels. */
  const CircleSize: int32 := 30

  // ---------------------------------------------------------------------
  // Button state

  /** The value of a key-state word read as a C# `short`. */
  function AsShort(w: bv16): (k: int16)
    ensures k < 0 <==> w >= 0x8000
  {
    TopBitIsSign(w);
    var u := w as int;
    if u < 0x8000 then u as int16 else (u - 0x1_0000) as int16
  }

  lemma TopBitIsSign(w: bv16)
    ensures w >= 0x8000 <==> w as int >= 0x8000
  {
  }

  /** The 32-bit word C# widens a `short` to before `&` with an `int`
      constant: the sign bit is copied into the upper half. */
  function Widen(w: bv16): (r: bv32)
    ensures r & 0xFFFF == w as bv32
    ensures AsShort(w) < 0 ==> r & 0xFFFF_0000 == 0xFFFF_0000
    ensures AsShort(w) >= 0 ==> r & 0xFFFF_0000 == 0
  {
    if w & 0x8000 != 0 then w as bv32 | 0xFFFF_0000 else w as bv32
  }

  /** `(GetAsyncKeyState(0x01) & 0x8000) != 0`: the button is down exactly
      when bit 15 of the key-state word is set, that is, exactly when the
      `short` is negative. The low bit ("pressed since the last call") and
      every other bit are ignored. */
  function IsButtonDown(w: bv16): (down: bool)
    ensures down <==> AsShort(w) < 0
    ensures down <==> w & 0x8000 != 0
  {
    Widen(w) & KeyDownMask != 0
  }

  // ---------------------------------------------------------------------
  // Extended window style

  /** `WS_EX_LAYERED` */
  const LayeredStyle: bv32 := 0x8_0000
  /** `WS_EX_TRANSPARENT` */
  const TransparentStyle: bv32 := 0x20

  /** `style | 0x80000 | 0x20`, as the constructor hands it to
      `SetWindowLong(GWL_EXSTYLE)`: both click-through bits are set and every
      bit of `style` is kept. */
  function WithClickThrough(style: bv32): (r: bv32)
    ensures r & LayeredStyle == LayeredStyle
    ensures r & TransparentStyle == TransparentStyle
    ensures r & style == style
  {
    style | LayeredStyle | TransparentStyle
  }

  /** The click-through OR adds no bit besides the layered and the
      transparent one. */
  lemma ClickThroughAddsOnlyItsBits(style: bv32)
    ensures WithClickThrough(style) & !(style | LayeredStyle | TransparentStyle) == 0
  {
  }

  /** The `CreateParams` override: `ExStyle |= 0x80000` and then
      `ExStyle |= 0x20` on the base class's parameters. The two compound
      assignments give the same word as the constructor's single OR. */
  function CreateParamsExStyle(baseStyle: bv32): (r: bv32)
    ensures r == WithClickThrough(baseStyle)
  {
    var afterLayered := baseStyle | LayeredStyle;
    afterLayered | TransparentStyle
  }

  /** Applying the click-through OR a second time changes nothing, so the
      constructor's `SetWindowLong` on a window created from `CreateParams`
      leaves its style as `CreateParams` made it. */
  lemma ClickThroughIdempotent(style: bv32)
    ensures WithClickThrough(WithClickThrough(style)) == WithClickThrough(style)
    ensures WithClickThrough(CreateParamsExStyle(style)) == CreateParamsExStyle(style)
  {
  }

  // ---------------------------------------------------------------------
  // Painting

  /** The rectangle handed to `Graphics.FillEllipse(brush, x, y, w, h)`. */
  datatype Rect = Rect(x: int32, y: int32, width: int32, height: int32)

  /** The brush `new SolidBrush(Color.FromArgb((int)(255 * opacity), baseColor))`:
      the red, green and blue of `baseColor` with an alpha computed from
      `opacity`. The float-to-alpha conversion is not modelled; the brush
      records where its alpha and its channels come from. */
  datatype Brush = Brush(alphaFrom: Float32, baseColor: Color)

  /** `(X - circleSize / 2, Y - circleSize / 2, circleSize, circleSize)` in
      unchecked 32-bit arithmetic. C# `/` truncates toward zero; with the
      positive `CircleSize` that agrees with Dafny's `/`. The box is a
      `CircleSize` square; its corner plus half a side is the cursor position
      again (with wrap-around), and for every position at least half a side
      above the smallest `int` the corner is the exact difference, negative
      coordinates of monitors left of or above the primary one included. */
  function EllipseBounds(p: Point): (box: Rect)
    ensures box.width == box.height == CircleSize
    ensures Wrap32(box.x as int + CircleSize as int / 2) == p.x
    ensures Wrap32(box.y as int + CircleSize as int / 2) == p.y
    ensures p.x as int >= MinInt32 + CircleSize as int / 2 ==> box.x as int + CircleSize as int / 2 == p.x as int
    ensures p.y as int >= MinInt32 + CircleSize as int / 2 ==> box.y as int + CircleSize as int / 2 == p.y as int
  {
    var half := CircleSize as int / 2;
    Rect(Wrap32(p.x as int - half), Wrap32(p.y as int - half), CircleSize, CircleSize)
  }

  // ---------------------------------------------------------------------
  // The tick as a transition on values

  /** The part of the form's state that timer ticks read and write: the last
      cursor position, the clicking flag, and how many repaints were
      requested so far. */
  datatype TrackerState = TrackerState(position: Point, clicking: bool, repaints: nat)

  /** True when a sample differs from the stored position or button state. */
  predicate Differs(position: Point, clicking: bool, s: Sample) {
    s.position != position || IsButtonDown(s.keyState) != clicking
  }

  /** One execution of `CursorTimer_Tick`. */
  function Step(t: TrackerState, s: Sample): (t': TrackerState)
    ensures t'.position == s.position && t'.clicking == IsButtonDown(s.keyState)
    ensures t'.repaints == t.repaints + (if Differs(t.position, t.clicking, s) then 1 else 0)
  {
    if Differs(t.position, t.clicking, s) then
      TrackerState(s.position, IsButtonDown(s.keyState), t.repaints + 1)
    else
      t
  }

  /** A tick whose sample matches the stored state changes nothing at all. */
  lemma UnchangedSampleIsIgnored(t: TrackerState, s: Sample)
    requires s.position == t.position && IsButtonDown(s.keyState) == t.clicking
    ensures Step(t, s) == t
  {
  }

  /** A second tick with the same sample requests no repaint and changes
      nothing: a tick is idempotent. */
  lemma RepeatedSampleIsIgnored(t: TrackerState, s: Sample)
    ensures Step(Step(t, s), s) == Step(t, s)
  {
  }

  /** The timer firing once per sample, in order. */
  function Run(t: TrackerState, samples: seq<Sample>): TrackerState
    decreases |samples|
  {
    if samples == [] then t else Run(Step(t, samples[0]), samples[1..])
  }

  /** The position and button state the form holds when tick `i` of `samples`
      starts: the initial ones before the first tick, afterwards those of the
      previous sample. */
  function Before(t: TrackerState, samples: seq<Sample>, i: nat): (Point, bool)
    requires i <= |samples|
  {
    if i == 0 then (t.position, t.clicking)
    else (samples[i - 1].position, IsButtonDown(samples[i - 1].keyState))
  }

  /** How many samples differ from the one before them (the first from the
      initial state), counted from the end. */
  function Changes(t: TrackerState, samples: seq<Sample>): nat
    decreases |samples|
  {
    if samples == [] then 0
    else
      var i := |samples| - 1;
      var (p, c) := Before(t, samples, i);
      Changes(t, samples[..i]) + (if Differs(p, c, samples[i]) then 1 else 0)
  }

  lemma {:induction false} RunAppend(t: TrackerState, samples: seq<Sample>, s: Sample)
    ensures Run(t, samples + [s]) == Step(Run(t, samples), s)
    decreases |samples|
  {
    if samples != [] {
      assert (samples + [s])[1..] == samples[1..] + [s];
      RunAppend(Step(t, samples[0]), samples[1..], s);
    }
  }

  /** After a run of ticks the form holds the last sample (or its initial
      state if there was none), and it requested exactly one repaint per
      sample that differed from its predecessor. */
  lemma {:induction false} RunRepaintsOncePerChange(t: TrackerState, samples: seq<Sample>)
    ensures Run(t, samples).repaints == t.repaints + Changes(t, samples)
    ensures (Run(t, samples).position, Run(t, samples).clicking) == Before(t, samples, |samples|)
    decreases |samples|
  {
    if samples != [] {
      var i := |samples| - 1;
      var init := samples[..i];
      assert samples == init + [samples[i]];
      RunRepaintsOncePerChange(t, init);
      RunAppend(t, init, samples[i]);
      if i > 0 {
        assert init[i - 1] == samples[i - 1];
      }
    }
  }

  // ---------------------------------------------------------------------
  // The form

  /** The three appearance values the settings dialog reports in its
      `SettingsChanged` event (`ColorSettings`). */
  datatype Appearance = Appearance(cursorColor: Color, clickColor: Color, opacity: Float32)

  /** The appearance a new form starts with: yellow, red, half opacity. */
  const InitialAppearance := Appearance(Yellow, Red, Half)

  class HighlighterForm {
    var lastPosition: Point
    var isClicking: bool
    var highlightColor: Color
    var clickColor: Color
    var opacity: Float32
    /** The window's extended style word, as `SetWindowLong` left it. */
    var exStyle: bv32
    /** How many times `Invalidate` was called. */
    var repaints: nat

    ghost function Tracker(): TrackerState
      reads this
    {
      TrackerState(lastPosition, isClicking, repaints)
    }

    function CurrentAppearance(): Appearance
      reads this
    {
      Appearance(highlightColor, clickColor, opacity)
    }

    /** The field initialisers and the constructor: the cursor position at
        creation, not clicking, the initial appearance, no repaint yet, and
        the window's extended style (`created`, as `GetWindowLong` reads it)
        with the layered and transparent bits ORed in. The tray icon, the
        form's border and the timer set-up are not modelled. */
    constructor (cursorAtStart: Point, created: bv32)
      ensures lastPosition == cursorAtStart && !isClicking && repaints == 0
      ensures CurrentAppearance() == InitialAppearance
      ensures exStyle == WithClickThrough(created)
    {
      lastPosition := cursorAtStart;
      isClicking := false;
      highlightColor := Yellow;
      clickColor := Red;
      opacity := Half;
      exStyle := WithClickThrough(created);
      repaints := 0;
    }

    /** `CursorTimer_Tick` with the sample the system returned. When the
        position or the button state differs from the stored one, both are
        stored and one repaint is requested; otherwise nothing changes. */
    method Tick(position: Point, keyState: bv16)
      modifies this`lastPosition, this`isClicking, this`repaints
      ensures lastPosition == position && isClicking == IsButtonDown(keyState)
      ensures Differs(old(lastPosition), old(isClicking), Sample(position, keyState)) ==> repaints == old(repaints) + 1
      ensures !Differs(old(lastPosition), old(isClicking), Sample(position, keyState)) ==> repaints == old(repaints)
      ensures Tracker() == Step(old(Tracker()), Sample(position, keyState))
      ensures unchanged(this`highlightColor, this`clickColor, this`opacity, this`exStyle)
    {
      var leftClick := IsButtonDown(keyState);
      if position != lastPosition || leftClick != isClicking {
        lastPosition := position;
        isClicking := leftClick;
        repaints := repaints + 1;
      }
    }

    /** What `OnPaint` draws: an ellipse in the bounds around the stored
        position, with a brush built from the click colour while the button
        is down and from the highlight colour otherwise. */
    method Paint() returns (brush: Brush, box: Rect)
      ensures brush.baseColor == (if isClicking then clickColor else highlightColor)
      ensures brush.alphaFrom == opacity
      ensures box == EllipseBounds(lastPosition)
    {
      var baseColor := if isClicking then clickColor else highlightColor;
      brush := Brush(opacity, baseColor);
      box := EllipseBounds(lastPosition);
    }

    /** The `SettingsChanged` handler registered in `ShowSettings`: the three
        appearance fields take the event's values and one repaint is
        requested; position, clicking flag and window style stay. */
    method OnSettingsChanged(e: Appearance)
      modifies this`highlightColor, this`clickColor, this`opacity, this`repaints
      ensures CurrentAppearance() == e
      ensures repaints == old(repaints) + 1
      ensures unchanged(this`lastPosition, this`isClicking, this`exStyle)
    {
      highlightColor := e.cursorColor;
      clickColor := e.clickColor;
      opacity := e.opacity;
      repaints := repaints + 1;
    }
  }
}
