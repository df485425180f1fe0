/**
 * The window manager of js/app.js: the module-level z-index counter, the
 * windows it stacks, the drag clamp, the close/minimize/maximize buttons
 * and the browser window's navigation history.
 *
 * Each window is a record in a map keyed by window identity; the style
 * fields are CSS lengths (pixel lengths as integers, the calc(...) texts
 * as opaque strings). A closed window stays in the map, detached, as the
 * DOM element it stands for survives its removal from the page.
 */
module Windows {
  import opened Wrappers
  import opened Browser

  type WinId = nat

  /** A CSS length held in a style field: pixels, a calc(...) expression, or unset (""). */
  datatype Length = Px(px: int) | Calc(expr: string) | Unset

  /** The four style fields that maximize saves and restores. */
  datatype Geometry = Geometry(left: Length, top: Length, width: Length, height: Length)

  /**
   * One window: its geometry, style.zIndex (unset until first focused),
   * whether style.display is 'none', the _maxed flag and _prev saved
   * geometry, whether it is attached to the page, and for a browser window
   * its history.
   */
  datatype Win = Win(
    geometry: Geometry,
    z: Option<int>,
    hidden: bool,
    maxed: bool,
    prev: Option<Geometry>,
    attached: bool,
    history: Option<History>)

  /** The initial value of zTop. */
  const FirstZ := 20

  /** The lower clamps of a drag: left >= 8, top >= 48. */
  const LeftFloor := 8
  const TopFloor := 48

  /** The geometry a maximized window takes. */
  const MaximizedGeometry := Geometry(Px(24), Px(48), Calc("100% - 48px"), Calc("100% - 120px"))

  /** A freshly created window at the given position, attached, not yet focused. */
  function NewWindow(left: int, top: int, history: Option<History>): Win
  {
    Win(Geometry(Px(left), Px(top), Unset, Unset), None, false, false, None, true, history)
  }

  /** The maximize button: save and take the full-size layout, or restore what was saved. */
  function ToggleMaximize(w: Win): Win
  {
    if !w.maxed then
      w.(prev := Some(w.geometry), geometry := MaximizedGeometry, maxed := true)
    else
      w.(geometry := if w.prev.Some? then w.prev.value else w.geometry, maxed := false)
  }

  /**
   * Maximize then maximize again restores the geometry exactly and clears
   * the flag; the saved geometry stays behind in _prev.
   */
  lemma MaximizeTwiceRestores(w: Win)
    requires !w.maxed
    ensures ToggleMaximize(w).maxed && ToggleMaximize(w).geometry == MaximizedGeometry
    ensures ToggleMaximize(ToggleMaximize(w)) == w.(prev := Some(w.geometry))
  {
  }

  /** Un-maximizing without a saved geometry only clears the flag. */
  lemma RestoreWithoutSaved(w: Win)
    requires w.maxed && w.prev.None?
    ensures ToggleMaximize(w) == w.(maxed := false)
  {
  }

  function Max(a: int, b: int): int
  {
    if a < b then b else a
  }

  /** A drag in progress: the window and the mouse's offset from its top-left corner at mouse-down. */
  datatype Drag = Drag(id: WinId, offsetX: int, offsetY: int)

  /** The session startDrag sets up from the window's rectangle and the mouse position. */
  function DragFrom(id: WinId, rectLeft: int, rectTop: int, startX: int, startY: int): Drag
  {
    Drag(id, startX - rectLeft, startY - rectTop)
  }

  /** The position move gives the window for the mouse at (cx, cy). */
  function DragPosition(d: Drag, cx: int, cy: int): (int, int)
  {
    (Max(LeftFloor, cx - d.offsetX), Max(TopFloor, cy - d.offsetY))
  }

  /**
   * A drag moves the window by the mouse's displacement from where it
   * went down, clamped below only: left is max(8, origin left + dx) and top
   * is max(48, origin top + dy), with no upper bound.
   */
  lemma DragClamp(id: WinId, rectLeft: int, rectTop: int, startX: int, startY: int, cx: int, cy: int)
    ensures var p := DragPosition(DragFrom(id, rectLeft, rectTop, startX, startY), cx, cy);
      && p.0 == Max(LeftFloor, rectLeft + (cx - startX))
      && p.1 == Max(TopFloor, rectTop + (cy - startY))
      && p.0 >= LeftFloor && p.1 >= TopFloor
      && (rectLeft + (cx - startX) >= LeftFloor ==> p.0 == rectLeft + (cx - startX))
      && (rectTop + (cy - startY) >= TopFloor ==> p.1 == rectTop + (cy - startY))
  {
  }

  /** Origin (90, 80) dragged by (10, -1000) lands at (100, 48). */
  lemma DragExample()
    ensures DragPosition(DragFrom(0, 90, 80, 500, 500), 510, -500) == (100, 48)
  {
  }

  /** A maximized window has its geometry saved; a browser history's cursor is on its newest entry. */
  predicate WinOk(w: Win)
  {
    && (w.maxed ==> w.prev.Some?)
    && (w.history.Some? ==> AtNewest(w.history.value))
  }

  /**
   * zTop is at least 20 and every z-index given out is above 20 and at most
   * zTop; no two windows share one; every window is WinOk.
   */
  predicate DesktopInvariant(zTop: int, windows: map<WinId, Win>)
  {
    && zTop >= FirstZ
    && (forall id :: id in windows && windows[id].z.Some? ==> FirstZ < windows[id].z.value <= zTop)
    && (forall i, j :: i in windows && j in windows && i != j && windows[i].z.Some? && windows[j].z.Some?
          ==> windows[i].z != windows[j].z)
    && (forall id :: id in windows ==> WinOk(windows[id]))
  }

  /** Raising a window to zTop + 1 keeps the invariant and puts it above every other window. */
  lemma RaiseKeepsInvariant(zTop: int, windows: map<WinId, Win>, id: WinId)
    requires DesktopInvariant(zTop, windows) && id in windows
    ensures var ws := windows[id := windows[id].(z := Some(zTop + 1))];
      && DesktopInvariant(zTop + 1, ws)
      && (forall j :: j in ws && j != id && ws[j].z.Some? ==> ws[j].z.value < zTop + 1)
  {
    var ws := windows[id := windows[id].(z := Some(zTop + 1))];
    forall i, j | i in ws && j in ws && i != j && ws[i].z.Some? && ws[j].z.Some?
      ensures ws[i].z != ws[j].z
    {
      if i != id && j != id {
        assert ws[i] == windows[i] && ws[j] == windows[j];
      }
    }
  }

  /** A new window with no z-index that is WinOk keeps the invariant. */
  lemma AddKeepsInvariant(zTop: int, windows: map<WinId, Win>, id: WinId, w: Win)
    requires DesktopInvariant(zTop, windows) && id !in windows && w.z.None? && WinOk(w)
    ensures DesktopInvariant(zTop, windows[id := w])
  {
  }

  /** Replacing a window by one with the same z-index that is WinOk keeps the invariant. */
  lemma ReplaceKeepsInvariant(zTop: int, windows: map<WinId, Win>, id: WinId, w: Win)
    requires DesktopInvariant(zTop, windows) && id in windows && w.z == windows[id].z && WinOk(w)
    ensures DesktopInvariant(zTop, windows[id := w])
  {
    var ws := windows[id := w];
    forall i, j | i in ws && j in ws && i != j && ws[i].z.Some? && ws[j].z.Some?
      ensures ws[i].z != ws[j].z
    {
      if i != id && j != id {
        assert ws[i] == windows[i] && ws[j] == windows[j];
      }
    }
  }

  /** Maximize keeps a window WinOk and leaves its z-index alone. */
  lemma ToggleKeepsWinOk(w: Win)
    requires WinOk(w)
    ensures WinOk(ToggleMaximize(w)) && ToggleMaximize(w).z == w.z
  {
  }

  /** The desktop: the zTop counter and every window created so far. */
  class Desktop {
    var zTop: int
    var windows: map<WinId, Win>

    ghost predicate Valid()
      reads this
    {
      DesktopInvariant(zTop, windows)
    }

    constructor ()
      ensures Valid() && zTop == FirstZ && windows == map[]
    {
      zTop := FirstZ;
      windows := map[];
    }

    /**
     * bringToFront: zTop goes up by exactly one and becomes the window's
     * z-index, above every other window's; nothing else changes.
     */
    method BringToFront(id: WinId)
      requires Valid() && id in windows
      modifies this
      ensures Valid()
      ensures zTop == old(zTop) + 1
      ensures windows == old(windows)[id := old(windows)[id].(z := Some(zTop))]
      ensures forall j :: j in windows && j != id && windows[j].z.Some? ==> windows[j].z.value < windows[id].z.value
    {
      RaiseKeepsInvariant(zTop, windows, id);
      zTop := zTop + 1;
      windows := windows[id := windows[id].(z := Some(zTop))];
    }

    /** Opening a window: create it, attach it, make it draggable and bring it to front. */
    method Open(id: WinId, w: Win)
      requires Valid() && id !in windows
      requires w == NewWindow(160, 120, None) || w == NewWindow(90, 80, Some(EmptyHistory))
      modifies this
      ensures Valid()
      ensures zTop == old(zTop) + 1
      ensures windows == old(windows)[id := w.(z := Some(zTop))]
    {
      AddKeepsInvariant(zTop, windows, id, w);
      windows := windows[id := w];
      BringToFront(id);
    }

    /** openCalculator: a calculator window at (160px, 120px). */
    method OpenCalculator(id: WinId)
      requires Valid() && id !in windows
      modifies this
      ensures Valid()
      ensures zTop == old(zTop) + 1
      ensures windows == old(windows)[id := NewWindow(160, 120, None).(z := Some(zTop))]
    {
      Open(id, NewWindow(160, 120, None));
    }

    /** openBrowser: a browser window at (90px, 80px) with an empty history. */
    method OpenBrowser(id: WinId)
      requires Valid() && id !in windows
      modifies this
      ensures Valid()
      ensures zTop == old(zTop) + 1
      ensures windows == old(windows)[id := NewWindow(90, 80, Some(EmptyHistory)).(z := Some(zTop))]
    {
      Open(id, NewWindow(90, 80, Some(EmptyHistory)));
    }

    /** startDrag: bring the window to front and record the mouse's offset within it. */
    method StartDrag(id: WinId, rectLeft: int, rectTop: int, startX: int, startY: int) returns (d: Drag)
      requires Valid() && id in windows
      modifies this
      ensures Valid()
      ensures zTop == old(zTop) + 1
      ensures windows == old(windows)[id := old(windows)[id].(z := Some(zTop))]
      ensures d == DragFrom(id, rectLeft, rectTop, startX, startY)
    {
      BringToFront(id);
      d := Drag(id, startX - rectLeft, startY - rectTop);
    }

    /**
     * A mouse-down on the title bar: startDrag, then the window's own
     * mouse-down listener brings it to front a second time, so zTop goes up
     * by two.
     */
    method PressTitlebar(id: WinId, rectLeft: int, rectTop: int, startX: int, startY: int) returns (d: Drag)
      requires Valid() && id in windows
      modifies this
      ensures Valid()
      ensures zTop == old(zTop) + 2
      ensures windows == old(windows)[id := old(windows)[id].(z := Some(zTop))]
      ensures d == DragFrom(id, rectLeft, rectTop, startX, startY)
    {
      d := StartDrag(id, rectLeft, rectTop, startX, startY);
      BringToFront(id);
    }

    /** move: set left and top from the mouse position, clamped below; nothing else changes. */
    method Move(d: Drag, cx: int, cy: int)
      requires Valid() && d.id in windows
      modifies this
      ensures Valid() && zTop == old(zTop)
      ensures var w := old(windows)[d.id];
        windows == old(windows)[d.id := w.(geometry := w.geometry.(
          left := Px(DragPosition(d, cx, cy).0), top := Px(DragPosition(d, cx, cy).1)))]
    {
      var w := windows[d.id];
      var g := w.geometry.(left := Px(Max(LeftFloor, cx - d.offsetX)));
      g := g.(top := Px(Max(TopFloor, cy - d.offsetY)));
      ReplaceKeepsInvariant(zTop, windows, d.id, w.(geometry := g));
      windows := windows[d.id := w.(geometry := g)];
    }

    /** The close button: detach the window; closing again changes nothing. */
    method Close(id: WinId)
      requires Valid() && id in windows
      modifies this
      ensures Valid() && zTop == old(zTop)
      ensures windows == old(windows)[id := old(windows)[id].(attached := false)]
      ensures !old(windows)[id].attached ==> windows == old(windows)
    {
      ReplaceKeepsInvariant(zTop, windows, id, windows[id].(attached := false));
      windows := windows[id := windows[id].(attached := false)];
    }

    /** The minimize button: hide the window; geometry, flags and z-index stay as they were. */
    method Minimize(id: WinId)
      requires Valid() && id in windows
      modifies this
      ensures Valid() && zTop == old(zTop)
      ensures windows == old(windows)[id := old(windows)[id].(hidden := true)]
    {
      ReplaceKeepsInvariant(zTop, windows, id, windows[id].(hidden := true));
      windows := windows[id := windows[id].(hidden := true)];
    }

    /** The maximize button. */
    method Maximize(id: WinId)
      requires Valid() && id in windows
      modifies this
      ensures Valid() && zTop == old(zTop)
      ensures windows == old(windows)[id := ToggleMaximize(old(windows)[id])]
    {
      var w := windows[id];
      if !w.maxed {
        w := w.(prev := Some(w.geometry));
        w := w.(geometry := MaximizedGeometry);
        w := w.(maxed := true);
      } else {
        if w.prev.Some? {
          w := w.(geometry := w.prev.value);
        }
        w := w.(maxed := false);
      }
      ToggleKeepsWinOk(windows[id]);
      ReplaceKeepsInvariant(zTop, windows, id, w);
      windows := windows[id := w];
    }

    /** navigate(u) in a browser window: a blank URL is ignored, any other is pushed onto its history. */
    method Navigate(id: WinId, u: string)
      requires Valid() && id in windows && windows[id].history.Some?
      modifies this
      ensures Valid() && zTop == old(zTop)
      ensures var w := old(windows)[id];
        windows == old(windows)[id := w.(history := Some(Navigated(w.history.value, u)))]
    {
      var n := Normalize(u);
      if n == [] {
        return;
      }
      var w := windows[id];
      var h := w.history.value;
      var kept := SliceTo(h.entries, h.pos + 1);
      kept := kept + [n];
      NavigateEffect(h, u);
      ReplaceKeepsInvariant(zTop, windows, id, w.(history := Some(History(kept, |kept| - 1))));
      windows := windows[id := w.(history := Some(History(kept, |kept| - 1)))];
    }
  }
}
