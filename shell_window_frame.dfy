/** The geometry of an app window's frame: a fixed caption strip on top of
    the client area, the window bounds that hold a given client area, the
    size limits the frame adds to the client's, the right-to-left row of
    caption buttons, and the order in which a point is classified for
    non-client hit testing.  Window and widget flags, button preferred sizes
    and the results of hit tests owned by other views are parameters. */
module FrameView {

  /** Height of the caption strip, in pixels. */
  const CaptionHeight: int := 25

  datatype Rect = Rect(x: int, y: int, width: int, height: int)
  datatype Size = Size(width: int, height: int)
  datatype Point = Point(x: int, y: int)

  predicate SizesNonNegative(r: Rect) {
    r.width >= 0 && r.height >= 0
  }

  predicate IsEmpty(r: Rect) {
    r.width == 0 || r.height == 0
  }

  predicate Contains(r: Rect, p: Point) {
    r.x <= p.x < r.x + r.width && r.y <= p.y < r.y + r.height
  }

  function SizeOf(r: Rect): Size {
    Size(r.width, r.height)
  }

  function Max(a: int, b: int): (m: int)
    ensures m >= a && m >= b && (m == a || m == b)
  {
    if a >= b then a else b
  }

  /** Integer division by two rounding toward zero, as C++ divides. */
  function HalfTowardZero(n: int): (h: int)
    ensures n >= 0 ==> 0 <= n - 2 * h <= 1
    ensures n < 0 ==> 0 <= 2 * h - n <= 1
  {
    if n >= 0 then n / 2 else -((-n) / 2)
  }

  /** The width the caption needs for the close button centred vertically
      with the same margin on its left and right. */
  function HeaderWidth(close: Size): (w: int)
    ensures var gap := CaptionHeight - close.height;
            var pad := w - close.width;
            pad % 2 == 0 && (gap >= 0 ==> 0 <= gap - pad <= 1) && (gap < 0 ==> 0 <= pad - gap <= 1)
  {
    close.width + 2 * HalfTowardZero(CaptionHeight - close.height)
  }

  /** The window and widget flags the frame consults. */
  datatype Flags = Flags(frameless: bool, fullscreen: bool, maximized: bool, canResize: bool)

  /** The client view's bounds for a frame view with bounds `view`: all of
      it for a frameless or fullscreen window, otherwise the part below the
      caption, never of negative height. */
  function BoundsForClientView(flags: Flags, view: Rect): (r: Rect)
    requires SizesNonNegative(view)
    ensures SizesNonNegative(r)
    ensures flags.frameless || flags.fullscreen ==> r == view
    ensures !(flags.frameless || flags.fullscreen) ==>
              && r.x == 0 && r.y == CaptionHeight && r.width == view.width
              && (view.height >= CaptionHeight ==> r.y + r.height == view.height)
              && (view.height <= CaptionHeight ==> r.height == 0)
  {
    if flags.frameless || flags.fullscreen then view
    else Rect(0, CaptionHeight, view.width, Max(0, view.height - CaptionHeight))
  }

  /** The window bounds that hold the client bounds `client`: the same
      rectangle, at least 1x1, for a frameless window; otherwise grown by
      the caption upward, kept on screen, and at least as wide as the
      header. */
  function WindowBoundsForClientBounds(flags: Flags, close: Size, client: Rect): (r: Rect)
    requires SizesNonNegative(client)
    ensures flags.frameless ==>
              && r.x == client.x && r.y == client.y
              && (IsEmpty(client) ==> r.width == 1 && r.height == 1)
              && (!IsEmpty(client) ==> r == client)
    ensures !flags.frameless ==>
              && r.x == client.x && r.y >= 0 && r.height == client.height + CaptionHeight
              && (client.y >= CaptionHeight ==> r.y + CaptionHeight == client.y)
              && r.width >= client.width && r.width >= HeaderWidth(close)
              && (r.width == client.width || r.width == HeaderWidth(close))
  {
    if flags.frameless then
      if IsEmpty(client) then Rect(client.x, client.y, 1, 1) else client
    else
      Rect(client.x, Max(0, client.y - CaptionHeight),
           Max(HeaderWidth(close), client.width), client.height + CaptionHeight)
  }

  /** A framed window sized for a client area gives that client area back,
      as long as the client is at least as wide as the header. */
  lemma FramedClientRoundTrip(flags: Flags, close: Size, client: Rect)
    requires !flags.frameless && !flags.fullscreen
    requires SizesNonNegative(client) && client.width >= HeaderWidth(close)
    ensures var w := WindowBoundsForClientBounds(flags, close, client);
            SizeOf(BoundsForClientView(flags, Rect(0, 0, w.width, w.height))) == SizeOf(client)
  {
  }

  /** A frameless window sized for a non-empty client area has exactly the
      client's bounds, which are the client view's bounds again. */
  lemma FramelessClientRoundTrip(flags: Flags, close: Size, client: Rect)
    requires flags.frameless && SizesNonNegative(client) && !IsEmpty(client)
    ensures BoundsForClientView(flags, WindowBoundsForClientBounds(flags, close, client)) == client
  {
  }

  /** The window's minimum size: the client's minimum grown by the client
      view's top offset (the caption, or for a fullscreen window the frame
      view's own top, 0 at its widget's origin) and widened to the header. */
  function MinimumSize(flags: Flags, view: Rect, clientMin: Size, close: Size): Size {
    if flags.frameless then clientMin
    else Size(Max(clientMin.width, HeaderWidth(close)),
              clientMin.height + (if flags.fullscreen then view.y else CaptionHeight))
  }

  /** GetMinimumSize, which grows a copy of the client's minimum step by
      step. */
  method GetMinimumSize(flags: Flags, view: Rect, clientMin: Size, close: Size) returns (minSize: Size)
    requires SizesNonNegative(view) && clientMin.width >= 0 && clientMin.height >= 0
    ensures minSize == MinimumSize(flags, view, clientMin, close)
  {
    minSize := clientMin;
    if flags.frameless {
      return;
    }
    var clientBounds := BoundsForClientView(flags, view);
    minSize := Size(minSize.width, minSize.height + clientBounds.y);
    var headerWidth := HeaderWidth(close);
    if headerWidth > minSize.width {
      minSize := Size(headerWidth, minSize.height);
    }
  }

  /** The minimum size of a framed window that is not fullscreen is the
      size of the window that holds a client of the client's minimum size. */
  lemma MinimumSizeHoldsMinimumClient(flags: Flags, view: Rect, clientMin: Size, close: Size)
    requires !flags.frameless && !flags.fullscreen
    requires clientMin.width >= 0 && clientMin.height >= 0
    ensures MinimumSize(flags, view, clientMin, close)
            == SizeOf(WindowBoundsForClientBounds(flags, close, Rect(0, 0, clientMin.width, clientMin.height)))
  {
  }

  /** The window's maximum size: each limited (non-zero) dimension of the
      client's maximum grown by what the frame adds in that dimension; an
      unlimited (zero) dimension stays unlimited. */
  function MaximumSize(flags: Flags, view: Rect, clientMax: Size): Size
    requires SizesNonNegative(view)
  {
    var client := BoundsForClientView(flags, view);
    Size(if clientMax.width == 0 then 0 else clientMax.width + (view.width - client.width),
         if clientMax.height == 0 then 0 else clientMax.height + (view.height - client.height))
  }

  /** GetMaximumSize, which grows a copy of the client's maximum step by
      step. */
  method GetMaximumSize(flags: Flags, view: Rect, clientMax: Size) returns (maxSize: Size)
    requires SizesNonNegative(view)
    ensures maxSize == MaximumSize(flags, view, clientMax)
  {
    maxSize := clientMax;
    var clientSize := SizeOf(BoundsForClientView(flags, view));
    if maxSize.width != 0 {
      maxSize := Size(maxSize.width + (view.width - clientSize.width), maxSize.height);
    }
    if maxSize.height != 0 {
      maxSize := Size(maxSize.width, maxSize.height + (view.height - clientSize.height));
    }
  }

  /** A framed window adds nothing to the width and the caption to the
      height of a limited maximum; a frameless or fullscreen one adds
      nothing at all. */
  lemma MaximumSizeAddsCaption(flags: Flags, view: Rect, clientMax: Size)
    requires SizesNonNegative(view) && view.height >= CaptionHeight
    ensures var m := MaximumSize(flags, view, clientMax);
            && m.width == clientMax.width
            && (clientMax.height == 0 ==> m.height == 0)
            && (clientMax.height != 0 ==>
                  m.height == clientMax.height + (if flags.frameless || flags.fullscreen then 0 else CaptionHeight))
  {
  }

  // Hit-test codes, with the values of the Windows non-client hit-test
  // codes that Chromium's views share.
  const HtNowhere: int := 0
  const HtClient: int := 1
  const HtCaption: int := 2
  const HtClose: int := 20

  /** The resize handles overlap the window's inside only while it can be
      resized, which a maximized or fullscreen window cannot. */
  function ResizeBorder(flags: Flags, insideSize: int): (b: int)
    ensures flags.maximized || flags.fullscreen ==> b == 0
    ensures !(flags.maximized || flags.fullscreen) ==> b == insideSize
  {
    if flags.maximized || flags.fullscreen then 0 else insideSize
  }

  /** NonClientHitTest.  `expanded` is the view's bounds grown by the
      platform's resize insets; `frameHit` is the frame's own resize-handle
      test for a given resize border; `inDraggable` says whether a frameless
      window's draggable region holds the point; `clientHit` is the client
      view's answer; the close button's visibility and mirrored bounds are
      given. */
  function NonClientHitTest(flags: Flags, expanded: Rect, p: Point, insideSize: int,
                            frameHit: int -> int, inDraggable: bool, clientHit: int,
                            closeVisible: bool, closeBounds: Rect): (r: int)
    ensures flags.fullscreen ==> r == HtClient
    ensures r == HtNowhere <==> !flags.fullscreen && !Contains(expanded, p)
    ensures !flags.fullscreen && Contains(expanded, p) && frameHit(ResizeBorder(flags, insideSize)) != HtNowhere ==>
              r == frameHit(ResizeBorder(flags, insideSize))
    ensures (&& !flags.fullscreen && Contains(expanded, p) && frameHit(ResizeBorder(flags, insideSize)) == HtNowhere
             && flags.frameless && inDraggable) ==> r == HtCaption
    ensures r == HtClose && frameHit(ResizeBorder(flags, insideSize)) != HtClose && clientHit != HtClose ==>
              closeVisible && Contains(closeBounds, p)
  {
    if flags.fullscreen then HtClient
    else if !Contains(expanded, p) then HtNowhere
    else
      var frameComponent := frameHit(ResizeBorder(flags, insideSize));
      if frameComponent != HtNowhere then frameComponent
      else if flags.frameless && inDraggable then HtCaption
      else if clientHit != HtNowhere then clientHit
      else if closeVisible && Contains(closeBounds, p) then HtClose
      else HtCaption
  }

  datatype Option<T> = None | Some(value: T)

  /** The answer of the first layer that claims the point, or `default`. */
  function FirstClaim(claims: seq<Option<int>>, default: int): (r: int)
    ensures (forall i :: 0 <= i < |claims| ==> claims[i].None?) ==> r == default
    ensures forall i :: 0 <= i < |claims| && claims[i].Some? && (forall j :: 0 <= j < i ==> claims[j].None?) ==>
              r == claims[i].value
  {
    if claims == [] then default
    else if claims[0].Some? then claims[0].value
    else FirstClaim(claims[1..], default)
  }

  /** The hit test asks its layers in a fixed order and the first that
      claims the point decides; the caption is the default. */
  lemma HitTestPriority(flags: Flags, expanded: Rect, p: Point, insideSize: int,
                        frameHit: int -> int, inDraggable: bool, clientHit: int,
                        closeVisible: bool, closeBounds: Rect)
    ensures var frameComponent := frameHit(ResizeBorder(flags, insideSize));
            NonClientHitTest(flags, expanded, p, insideSize, frameHit, inDraggable, clientHit, closeVisible, closeBounds)
            == FirstClaim([ if flags.fullscreen then Some(HtClient) else None,
                            if !Contains(expanded, p) then Some(HtNowhere) else None,
                            if frameComponent != HtNowhere then Some(frameComponent) else None,
                            if flags.frameless && inDraggable then Some(HtCaption) else None,
                            if clientHit != HtNowhere then Some(clientHit) else None,
                            if closeVisible && Contains(closeBounds, p) then Some(HtClose) else None ],
                          HtCaption)
  {
    var frameComponent := frameHit(ResizeBorder(flags, insideSize));
    var claims := [ if flags.fullscreen then Some(HtClient) else None,
                    if !Contains(expanded, p) then Some(HtNowhere) else None,
                    if frameComponent != HtNowhere then Some(frameComponent) else None,
                    if flags.frameless && inDraggable then Some(HtCaption) else None,
                    if clientHit != HtNowhere then Some(clientHit) else None,
                    if closeVisible && Contains(closeBounds, p) then Some(HtClose) else None ];
    var r := NonClientHitTest(flags, expanded, p, insideSize, frameHit, inDraggable, clientHit, closeVisible, closeBounds);
    if flags.fullscreen {
      assert claims[0].Some?;
    } else if !Contains(expanded, p) {
      assert claims[0].None? && claims[1].Some?;
    } else if frameComponent != HtNowhere {
      assert forall j :: 0 <= j < 2 ==> claims[j].None?;
      assert claims[2].Some?;
    } else if flags.frameless && inDraggable {
      assert forall j :: 0 <= j < 3 ==> claims[j].None?;
      assert claims[3].Some?;
    } else if clientHit != HtNowhere {
      assert forall j :: 0 <= j < 4 ==> claims[j].None?;
      assert claims[4].Some?;
    } else if closeVisible && Contains(closeBounds, p) {
      assert forall j :: 0 <= j < 5 ==> claims[j].None?;
      assert claims[5].Some?;
    } else {
      assert forall i :: 0 <= i < |claims| ==> claims[i].None?;
    }
  }

  /** A caption button's state that Layout resets. */
  datatype ButtonState = Normal | Hovered | Pressed | Disabled

  class Button {
    var bounds: Rect
    var visible: bool
    var enabled: bool
    var state: ButtonState

    constructor()
      ensures bounds == Rect(0, 0, 0, 0) && visible && enabled && state == Normal
    {
      bounds := Rect(0, 0, 0, 0);
      visible := true;
      enabled := true;
      state := Normal;
    }
  }

  const ButtonOffsetY: int := 0
  const ButtonSpacing: int := 1
  const RightMargin: int := 3

  /** The frame view with its four caption buttons, which exist exactly when
      the window has a frame. */
  class ShellWindowFrame {
    const frameless: bool
    const close: Button?
    const maximize: Button?
    const restore: Button?
    const minimize: Button?

    ghost predicate Valid()
      reads this
    {
      if frameless then close == null && maximize == null && restore == null && minimize == null
      else
        && close != null && maximize != null && restore != null && minimize != null
        && close != maximize && close != restore && close != minimize
        && maximize != restore && maximize != minimize && restore != minimize
    }

    /** Init: the buttons only for a framed window. */
    constructor(frameless: bool)
      ensures Valid() && this.frameless == frameless
      ensures !frameless ==> fresh(close) && fresh(maximize) && fresh(restore) && fresh(minimize)
    {
      this.frameless := frameless;
      if frameless {
        close, maximize, restore, minimize := null, null, null, null;
      } else {
        close := new Button();
        maximize := new Button();
        restore := new Button();
        minimize := new Button();
      }
    }

    /** Layout: the close button 3 pixels from the right edge, then
        maximize and restore in the same slot 1 pixel to its left, then
        minimize 1 pixel left of maximize; only one of maximize and restore
        shows, maximize is enabled only for a resizable window, and the one
        shown goes back to its normal state. */
    method Layout(width: int, canResize: bool, maximized: bool,
                  closeSize: Size, maximizeSize: Size, restoreSize: Size, minimizeSize: Size)
      requires Valid()
      modifies close, maximize, restore, minimize
      ensures !frameless ==>
                && close.bounds == Rect(width - RightMargin - closeSize.width, ButtonOffsetY, closeSize.width, closeSize.height)
                && maximize.bounds.x + maximize.bounds.width + ButtonSpacing == close.bounds.x
                && restore.bounds.x + restore.bounds.width + ButtonSpacing == close.bounds.x
                && minimize.bounds.x + minimize.bounds.width + ButtonSpacing == maximize.bounds.x
                && SizeOf(maximize.bounds) == maximizeSize && SizeOf(restore.bounds) == restoreSize
                && SizeOf(minimize.bounds) == minimizeSize
                && maximize.bounds.y == ButtonOffsetY && restore.bounds.y == ButtonOffsetY
                && minimize.bounds.y == ButtonOffsetY
                && close.bounds.x + close.bounds.width + RightMargin == width
      ensures !frameless ==>
                && maximize.enabled == canResize
                && maximize.visible == !maximized && restore.visible == maximized
                && maximize.visible != restore.visible
                && (maximized ==> maximize.state == Normal && restore.state == old(restore.state))
                && (!maximized ==> restore.state == Normal && maximize.state == old(maximize.state))
      ensures !frameless ==>
                && close.visible == old(close.visible) && close.enabled == old(close.enabled)
                && close.state == old(close.state)
                && restore.enabled == old(restore.enabled)
                && minimize.visible == old(minimize.visible) && minimize.enabled == old(minimize.enabled)
                && minimize.state == old(minimize.state)
    {
      if frameless {
        return;
      }
      close.bounds := Rect(width - RightMargin - closeSize.width, ButtonOffsetY, closeSize.width, closeSize.height);
      maximize.enabled := canResize;
      maximize.bounds := Rect(close.bounds.x - ButtonSpacing - maximizeSize.width, ButtonOffsetY,
                              maximizeSize.width, maximizeSize.height);
      restore.bounds := Rect(close.bounds.x - ButtonSpacing - restoreSize.width, ButtonOffsetY,
                             restoreSize.width, restoreSize.height);
      maximize.visible := !maximized;
      restore.visible := maximized;
      if maximized {
        maximize.state := Normal;
      } else {
        restore.state := Normal;
      }
      minimize.bounds := Rect(maximize.bounds.x - ButtonSpacing - minimizeSize.width, ButtonOffsetY,
                              minimizeSize.width, minimizeSize.height);
    }
  }
}
