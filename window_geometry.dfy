/** Window geometry: the SetWindowPos request made by set_window_coords, and the
    resize that set_window_size was written to make. GetWindowRect's answer for the
    window is the parameter current. */
module WindowGeometry {
  import opened Wrappers
  import opened Win32

  /** A window rectangle in screen coordinates. */
  datatype Rect = Rect(left: int, top: int, right: int, bottom: int)
  {
    function Width(): int { right - left }
    function Height(): int { bottom - top }
  }

  /** The arguments of one SetWindowPos call. */
  datatype WindowPos = WindowPos(handle: Handle, insertAfter: Handle, x: int, y: int, cx: int, cy: int, flags: int)
  {
    /** The rectangle the window occupies once it is placed. */
    function Placed(): Rect { Rect(x, y, x + cx, y + cy) }
  }

  /** Moves the window to (left, top). With a right and a bottom edge it is resized to
      them; with either of them 0 (the defaults) it keeps its current size. */
  function SetWindowCoords(windowHandle: Handle, left: int, top: int, right: int, bottom: int, current: Rect): (r: WindowPos)
    ensures r.handle == windowHandle && r.insertAfter == HWND_TOP && r.flags == 0
    ensures r.Placed().left == left && r.Placed().top == top
    ensures right != 0 && bottom != 0 ==> r.Placed() == Rect(left, top, right, bottom)
    ensures right == 0 || bottom == 0 ==>
      r.Placed().Width() == current.Width() && r.Placed().Height() == current.Height()
  {
    var (width, height) :=
      if right == 0 || bottom == 0 then (current.right - current.left, current.bottom - current.top)
      else (right - left, bottom - top);
    WindowPos(windowHandle, HWND_TOP, left, top, width, height, 0)
  }

  datatype Error = UndefinedName(name: string)

  /** The global names of StartupAutomation.py: its imports, its constant and its
      functions. A call by a bare name is looked up among these (no builtin is
      called by a name of this program). */
  const ModuleGlobals: set<string> :=
    {"win32gui", "win32con", "win32process", "win32api", "win32console", "time",
     "MULI_KEYPRESS_SLEEP_DELAY",
     "run_program", "get_all_window_handles", "get_process_window_handles",
     "get_current_window_handle", "get_window_handle", "get_window_name",
     "get_window_coords", "set_window_coords", "set_window_size",
     "bring_window_to_foreground", "get_foreground_window", "window_is_foreground",
     "get_parent_window_at_coordinates", "get_child_window_at_coordinates",
     "get_window_tree_at_coordinates", "press_key", "press_return", "press_enter",
     "press_enter_safely", "press_printscreen", "type_string", "type_string_safely",
     "capslock_on", "get_cursor", "set_cursor", "left_click"}

  /** A call name(windowHandle, left, top, right, bottom) from inside the module: a
      name that is no global raises NameError; set_window_coords repositions. */
  function CallRepositioner(name: string, windowHandle: Handle, left: int, top: int, right: int, bottom: int,
                            current: Rect): (r: Result<WindowPos, Error>)
    requires name == "set_window_coords" || name !in ModuleGlobals
    ensures r.Failure? <==> name !in ModuleGlobals
    ensures r.Failure? ==> r.error == UndefinedName(name)
    ensures r.Success? ==> r.value == SetWindowCoords(windowHandle, left, top, right, bottom, current)
  {
    if name in ModuleGlobals then Success(SetWindowCoords(windowHandle, left, top, right, bottom, current))
    else Failure(UndefinedName(name))
  }

  /** set_window_size as written: it computes the new edges from the current
      rectangle, then calls setWindowCoords, which is no global of the module, so the
      call ends in a NameError and the window is never resized. */
  function SetWindowSizeAsWritten(windowHandle: Handle, width: int, height: int, current: Rect): (r: Result<WindowPos, Error>)
    ensures r == Failure(UndefinedName("setWindowCoords"))
  {
    var newRight := current.left + width;
    var newBottom := current.top + height;
    CallRepositioner("setWindowCoords", windowHandle, current.left, current.top, newRight, newBottom, current)
  }

  /** set_window_size with the call directed to set_window_coords: the window keeps its
      top-left corner and takes the new size, unless the new right or bottom edge is 0,
      which set_window_coords reads as an omitted edge. */
  function SetWindowSize(windowHandle: Handle, width: int, height: int, current: Rect): (r: WindowPos)
    ensures r.handle == windowHandle && r.insertAfter == HWND_TOP && r.flags == 0
    ensures r.x == current.left && r.y == current.top
    ensures current.left + width != 0 && current.top + height != 0 ==> r.cx == width && r.cy == height
    ensures current.left + width == 0 || current.top + height == 0 ==>
      r.cx == current.Width() && r.cy == current.Height()
  {
    CallRepositioner("set_window_coords", windowHandle, current.left, current.top,
                     current.left + width, current.top + height, current).value
  }
}
