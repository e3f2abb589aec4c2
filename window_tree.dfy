/** The window hit-test: the chain of windows under a screen point, found by asking
    the platform for the window at the point and then, level by level, for the
    child of the current window that contains the point.

    The platform's answers are parameters: windowFromPoint(p) is WindowFromPoint,
    childWindowFromPoint(h, p) is ChildWindowFromPoint; both may return the null
    handle 0, and ChildWindowFromPoint returns its own argument when no child of it
    contains the point. */
module WindowTree {
  import opened Wrappers
  import opened Win32

  datatype Point = Point(x: int, y: int)

  /** An answer of ChildWindowFromPoint that leads one level deeper than parent. */
  predicate IsDeeper(child: Handle, parent: Handle)
  {
    child != 0 && child != parent
  }

  /** s is the chain the hit-test is meant to produce at p: empty when no window is
      at p, otherwise the window at p followed by one deeper child per element, up
      to a window with no deeper child at p. */
  ghost predicate IsHitChain(windowFromPoint: Point -> Handle, childWindowFromPoint: (Handle, Point) -> Handle,
                             p: Point, s: seq<Handle>)
  {
    && (s == [] <==> windowFromPoint(p) == 0)
    && (s != [] ==> s[0] == windowFromPoint(p))
    && (forall i :: 0 < i < |s| ==> s[i] == childWindowFromPoint(s[i - 1], p) && IsDeeper(s[i], s[i - 1]))
    && (s != [] ==> !IsDeeper(childWindowFromPoint(s[|s| - 1], p), s[|s| - 1]))
  }

  /** The window at (x, y), with the null handle read as no window. */
  function GetParentWindowAtCoordinates(windowFromPoint: Point -> Handle, x: int, y: int): (r: Option<Handle>)
    ensures r.None? <==> windowFromPoint(Point(x, y)) == 0
    ensures r.Some? ==> r.value == windowFromPoint(Point(x, y))
  {
    var windowHandle := windowFromPoint(Point(x, y));
    if windowHandle == 0 then None else Some(windowHandle)
  }

  /** The first child containing (x, y) of the window at (x, y), if there is one. */
  function GetChildWindowAtCoordinates(windowFromPoint: Point -> Handle, childWindowFromPoint: (Handle, Point) -> Handle,
                                       x: int, y: int): (r: Option<Handle>)
    ensures r.Some? ==> GetParentWindowAtCoordinates(windowFromPoint, x, y).Some?
    ensures r.Some? ==> IsDeeper(r.value, windowFromPoint(Point(x, y)))
  {
    match GetParentWindowAtCoordinates(windowFromPoint, x, y)
    case None => None
    case Some(parentHandle) =>
      var childHandle := childWindowFromPoint(parentHandle, Point(x, y));
      if childHandle == 0 || childHandle == parentHandle then None else Some(childHandle)
  }

  /** The hit-test loop. The source guards only against a window being its own
      child, so it ends only if the platform's window tree is finite along the
      point: depth is a measure of that tree, and each deeper child must have a
      smaller depth than its parent. */
  method GetWindowTreeAtCoordinates(windowFromPoint: Point -> Handle, childWindowFromPoint: (Handle, Point) -> Handle,
                                    ghost depth: Handle -> nat, x: int, y: int)
    returns (windowHandles: seq<Handle>)
    requires forall h :: IsDeeper(childWindowFromPoint(h, Point(x, y)), h) ==>
                           depth(childWindowFromPoint(h, Point(x, y))) < depth(h)
    ensures IsHitChain(windowFromPoint, childWindowFromPoint, Point(x, y), windowHandles)
  {
    var p := Point(x, y);
    windowHandles := [];
    var parentHandle := GetParentWindowAtCoordinates(windowFromPoint, x, y);
    while parentHandle.Some?
      invariant windowHandles == [] ==> parentHandle == GetParentWindowAtCoordinates(windowFromPoint, x, y)
      invariant windowHandles != [] ==> windowHandles[0] == windowFromPoint(p) != 0
      invariant forall i :: 0 < i < |windowHandles| ==>
                  windowHandles[i] == childWindowFromPoint(windowHandles[i - 1], p) && IsDeeper(windowHandles[i], windowHandles[i - 1])
      invariant windowHandles != [] && parentHandle.Some? ==>
                  var last := windowHandles[|windowHandles| - 1];
                  parentHandle.value == childWindowFromPoint(last, p) && IsDeeper(parentHandle.value, last)
      invariant windowHandles != [] && parentHandle.None? ==>
                  var last := windowHandles[|windowHandles| - 1];
                  !IsDeeper(childWindowFromPoint(last, p), last)
      decreases if parentHandle.Some? then depth(parentHandle.value) + 1 else 0
    {
      var parent := parentHandle.value;
      windowHandles := windowHandles + [parent];
      var childWindow := childWindowFromPoint(parent, p);
      var childHandle := if childWindow == 0 then None else Some(childWindow);
      if childHandle == Some(parent) {
        parentHandle := None;
      } else {
        parentHandle := childHandle;
      }
    }
  }

  /** If a chain goes on past a window, every chain through that window at the same
      position goes on too. */
  lemma HitChainContinues(windowFromPoint: Point -> Handle, childWindowFromPoint: (Handle, Point) -> Handle,
                          p: Point, s: seq<Handle>, t: seq<Handle>, i: nat)
    requires IsHitChain(windowFromPoint, childWindowFromPoint, p, s)
    requires IsHitChain(windowFromPoint, childWindowFromPoint, p, t)
    requires i + 1 < |s| && i < |t| && s[i] == t[i]
    ensures i + 1 < |t|
  {
    assert s[i + 1] == childWindowFromPoint(s[i], p) && IsDeeper(s[i + 1], s[i]);
  }

  /** Two chains that agree at position i agree from there on. */
  lemma {:induction false} HitChainsAgreeFrom(windowFromPoint: Point -> Handle, childWindowFromPoint: (Handle, Point) -> Handle,
                                              p: Point, s: seq<Handle>, t: seq<Handle>, i: nat)
    requires IsHitChain(windowFromPoint, childWindowFromPoint, p, s)
    requires IsHitChain(windowFromPoint, childWindowFromPoint, p, t)
    requires i < |s| && i < |t| && s[i] == t[i]
    ensures s[i..] == t[i..]
    decreases |s| - i
  {
    if i + 1 < |s| {
      HitChainContinues(windowFromPoint, childWindowFromPoint, p, s, t, i);
    }
    if i + 1 < |t| {
      HitChainContinues(windowFromPoint, childWindowFromPoint, p, t, s, i);
    }
    if i + 1 < |s| {
      assert s[i + 1] == t[i + 1];
      HitChainsAgreeFrom(windowFromPoint, childWindowFromPoint, p, s, t, i + 1);
      assert s[i..] == [s[i]] + s[i + 1..];
      assert t[i..] == [t[i]] + t[i + 1..];
    } else {
      assert s[i..] == [s[i]] && t[i..] == [t[i]];
    }
  }

  /** The hit chain at a point is determined by the platform's answers. */
  lemma HitChainIsUnique(windowFromPoint: Point -> Handle, childWindowFromPoint: (Handle, Point) -> Handle,
                         p: Point, s: seq<Handle>, t: seq<Handle>)
    requires IsHitChain(windowFromPoint, childWindowFromPoint, p, s)
    requires IsHitChain(windowFromPoint, childWindowFromPoint, p, t)
    ensures s == t
  {
    if s != [] {
      HitChainsAgreeFrom(windowFromPoint, childWindowFromPoint, p, s, t, 0);
      assert s[0..] == s && t[0..] == t;
    }
  }

  /** The one-level query answers the second element of the chain. */
  lemma ChildWindowIsSecondInChain(windowFromPoint: Point -> Handle, childWindowFromPoint: (Handle, Point) -> Handle,
                                   x: int, y: int, s: seq<Handle>)
    requires IsHitChain(windowFromPoint, childWindowFromPoint, Point(x, y), s)
    ensures GetChildWindowAtCoordinates(windowFromPoint, childWindowFromPoint, x, y) == if |s| >= 2 then Some(s[1]) else None
  {
  }

  /** A point inside a parent window and inside one of its children, with nothing
      deeper there: the chain is exactly the parent, then the child. */
  lemma NestedWindowChain(windowFromPoint: Point -> Handle, childWindowFromPoint: (Handle, Point) -> Handle,
                          p: Point, parent: Handle, child: Handle, s: seq<Handle>)
    requires windowFromPoint(p) == parent && parent != 0
    requires childWindowFromPoint(parent, p) == child && IsDeeper(child, parent)
    requires !IsDeeper(childWindowFromPoint(child, p), child)
    requires IsHitChain(windowFromPoint, childWindowFromPoint, p, s)
    ensures s == [parent, child]
  {
    assert IsHitChain(windowFromPoint, childWindowFromPoint, p, [parent, child]);
    HitChainIsUnique(windowFromPoint, childWindowFromPoint, p, s, [parent, child]);
  }

  /** A point inside a window with no child at that point: the chain is just that window. */
  lemma SingleWindowChain(windowFromPoint: Point -> Handle, childWindowFromPoint: (Handle, Point) -> Handle,
                          p: Point, w: Handle, s: seq<Handle>)
    requires windowFromPoint(p) == w && w != 0
    requires !IsDeeper(childWindowFromPoint(w, p), w)
    requires IsHitChain(windowFromPoint, childWindowFromPoint, p, s)
    ensures s == [w]
  {
    assert IsHitChain(windowFromPoint, childWindowFromPoint, p, [w]);
    HitChainIsUnique(windowFromPoint, childWindowFromPoint, p, s, [w]);
  }
}
