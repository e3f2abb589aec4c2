# StartupAutomation — a Dafny model

StartupAutomation.py is a small Windows desktop-automation library. It
launches programs, finds and positions their windows, and types text into
them by synthesising keyboard events through `keybd_event`. This project
models the parts of it that make decisions, and proves what that logic
guarantees. The Win32 calls themselves are modelled as data:

- **Typing** (`keys.dfy`, `typing.dfy`). `type_string` maps each character
  to a virtual-key stroke, plain or with Shift held. It stops at the first
  character it cannot type. `type_string_safely` checks typing against the
  foreground window before every character. `press_enter_safely` presses
  Return only when the given window has focus. Every keyboard event is
  appended to the `sent` sequence of an `InputStream` object, so each
  method is stated as "the events it sends". The typing operations take the
  character table as a parameter (`Keys.KeyTable`): `AsWritten` is the
  table exactly as the source writes it, so `type_string(text)` is
  `TypeString(AsWritten, text)`; `Corrected` is the same table with the
  `+`/`=` mistake under "## Findings" put right. Every property of the log
  is proved for both tables except the round trip through the US layout,
  which holds only for `Corrected`. The foreground window is an
  oracle `foregroundAt: nat -> Handle`, indexed by the character about to
  be typed. The key codes are the `win32con` constants (`win32.dfy`). A US
  keyboard layout (`Keys.UsLayout`) serves as the independent reference.
  It says which character a stroke produces, so the key table can be
  checked against it.
- **Window hit-testing** (`window_tree.dfy`). These functions find the
  top-level window under a point with `WindowFromPoint`. They then descend
  with `ChildWindowFromPoint` until no deeper child exists. Both Win32
  calls are parameters: `WindowFromPoint` as a function `Point -> Handle`,
  `ChildWindowFromPoint` as a function `(Handle, Point) -> Handle` of the
  parent window and the point.
- **Window geometry** (`window_geometry.dfy`). `set_window_coords` and
  `set_window_size` compute the arguments for `SetWindowPos`. The model
  returns those arguments as a `WindowPos` value. The current window
  rectangle, which the source gets from `GetWindowRect`, is a parameter.
- **Process windows** (`process_windows.dfy`). `get_process_window_handles`
  keeps the enumerated windows that belong to one process. The
  `EnumWindows` enumeration is given as a sequence. The pid lookups are
  given as functions.

A few facts about the code that the model keeps as they are:

- Typing `"Hi!"` sends 10 events: Shift around `H`, a plain `I`, and Shift
  around the `1` key for `!`.
- `type_string` and `type_string_safely` report failure only by returning
  `False`. They do not say which character or position failed.
- The chain of windows under a point is exactly the chain the loop walks.
  The loop stops only when a window has no other child under the point, so
  the model promises nothing about repeated handles further down.
- When the window loses focus, `type_string_safely` returns `False`. It
  raises no error.
- `keybd_event` reports no failure, so the calls that use it report none.

## Model

| member | source | states |
|---|---|---|
| Keys.ClassifyAsWritten | StartupAutomation.py:194-258 | the key table as written: every stroke it picks is a real virtual key (0 < vk < 256) and never Shift itself |
| Keys.Classify | StartupAutomation.py:194-258 | the key table with `+` and `=` put right; every stroke is a real key other than Shift |
| Keys.SupportedCharacters | StartupAutomation.py:194-258 | a character gets a stroke exactly when it is an ASCII letter, a digit, tab, newline, space or one of the 22 listed punctuation marks; everything else takes the `else: return False` branch; this holds for both tables |
| Keys.Lookup | StartupAutomation.py:194-258 | the stroke a table gives a character is a real virtual key other than Shift, for either table |
| Keys.ClassifyTypesItself | StartupAutomation.py:182-258 | every stroke the corrected table picks types that very character on a US layout |
| Keys.PlusAndEqualsSwappedAsWritten | StartupAutomation.py:210-213 | as written, `+` is sent as an unshifted 0xBB, which types `=`, and `=` as Shift+0xBB, which types `+` |
| Keys.AsWrittenCorrectExceptPlusAndEquals | StartupAutomation.py:194-258 | for every other supported character, the written table equals the corrected one and types the character itself |
| Keys.LetterCases | StartupAutomation.py:195-200 | a lower-case letter is its upper-case key code pressed plainly; the upper-case letter is the same key with Shift |
| Keys.SourceKeyTable | StartupAutomation.py:201-253 | digits are their own key codes; tab, newline and space are VK_TAB, VK_RETURN and VK_SPACE; `, - . / '` are the plain OEM keys and `< _ > ? "` the same keys shifted; `! @ # $ % ^ & * ( )` are Shift plus the digit keys 1…0 |
| Typing.CharEvents | StartupAutomation.py:194-253 | one character's events: nothing exactly when the table has no branch for it, otherwise a press of 2 events or a Shift press of 4 |
| Typing.Typed | StartupAutomation.py:194-259 | the log of the loop over text: the characters' events in order (its properties are the lemmas below) |
| Typing.WindowIsForeground | StartupAutomation.py:110-113 | window_is_foreground: true exactly when the handle is nonzero and equals the foreground window |
| Typing.SupportedPrefix | StartupAutomation.py:194-258 | the length of the longest typeable prefix: every character before it is typeable, and the one at it (if any) is not |
| Typing.FocusPrefix | StartupAutomation.py:265-267 | the number of characters typed before focus is lost: the window was in front for each of them, and not for the next one |
| Typing.TypedAppend | StartupAutomation.py:194-259 | for either table, the events for a concatenation are the events for each part, one after the other |
| Typing.TypedSnoc | StartupAutomation.py:194-259 | one more loop iteration appends exactly that character's events |
| Typing.ShiftDepthAppend | StartupAutomation.py:188-193 | the net Shift state of a concatenation of event sequences is the sum of their net Shift states |
| Typing.CharShiftProfile | StartupAutomation.py:188-193 | one character's events leave Shift released, and at no point hold it more than once |
| Typing.TypedReleasesShift | StartupAutomation.py:188-259 | after typing any text, Shift is released |
| Typing.ShiftReleasedAtEveryBoundary | StartupAutomation.py:188-259 | the events split at every character boundary, and Shift is up at each boundary, so a failure never leaves Shift held |
| Typing.ShiftHeldAtMostOnce | StartupAutomation.py:188-259 | no prefix of the typed events ever releases Shift that is not down, or presses it twice |
| Typing.TypingReproducesText | StartupAutomation.py:182-260 | for text of supported characters, the events decoded on a US layout give back exactly that text |
| Typing.HiExample | StartupAutomation.py:182-260 | with either table, `"Hi!"` is Shift-H, plain I, then Shift-1: 10 events |
| Typing.PlusAndEqualsTypedAsWritten | StartupAutomation.py:210-213 | with the source's table, typing `"+"` sends the plain 0xBB press and the application receives `"="`; typing `"="` sends Shift+0xBB and `"+"` arrives |
| Typing.SupportSameInBothTables | StartupAutomation.py:194-258 | both tables stop at the same character and accept the same texts |
| Typing.TablesAgreeOffPlusAndEquals | StartupAutomation.py:194-253 | a text without `+` and `=` sends the same events with either table |
| Typing.AsWrittenReproducesTextOffPlusAndEquals | StartupAutomation.py:182-260 | with the source's own table, a supported text without `+` and `=` reaches a US-layout application intact |
| Typing.StopsAtUnsupported | StartupAutomation.py:256-258 | reaching an untypeable character within the prefix means the prefix ends there and the text is not all typeable |
| Typing.FocusLostAt | StartupAutomation.py:266-267 | the first character at which focus is lost ends the focus prefix |
| Typing.InputStream.PressEnterSafely | StartupAutomation.py:171-176 | returns true exactly when the handle is nonzero and in front (the window_is_foreground test at lines 110-113); Return is pressed then, and otherwise nothing is sent |
| Typing.InputStream.TypeString | StartupAutomation.py:182-260 | for the given table (the source's own being AsWritten), returns true exactly when every character is supported; it sends the strokes of the longest supported prefix and nothing more |
| Typing.InputStream.TypeStringSafely | StartupAutomation.py:262-268 | for the given table, returns true exactly when the handle is nonzero and stays in front for every character; it types the characters up to the first focus loss, and types nothing for handle 0 |
| Typing.InputStream.PressKey | StartupAutomation.py:155-161 | sends key-down then key-up of the key |
| Typing.InputStream.PressShiftSomething | StartupAutomation.py:188-193 | sends Shift down, the key pressed, then Shift up |
| Typing.InputStream.PressReturn | StartupAutomation.py:163-165 | presses VK_RETURN |
| Typing.InputStream.PressPrintScreen | StartupAutomation.py:178-180 | presses VK_SNAPSHOT |
| Typing.InputStream.PressStroke | StartupAutomation.py:195-253 | the per-branch call of type_string: a plain stroke is a press_key, a shifted one a press_shift_something |
| WindowTree.GetParentWindowAtCoordinates | StartupAutomation.py:115-119 | None exactly when WindowFromPoint gives 0; otherwise that handle |
| WindowTree.GetChildWindowAtCoordinates | StartupAutomation.py:121-133 | a result exists only under a window; it is then nonzero and differs from that window |
| WindowTree.GetWindowTreeAtCoordinates | StartupAutomation.py:135-151 | the result is the hit chain: empty when no window is there, otherwise it starts at the top-level window and each entry is the deeper child of the one before, down to a window with no deeper child |
| WindowTree.HitChainsAgreeFrom | StartupAutomation.py:135-151 | two hit chains that meet at one position agree from there on |
| WindowTree.HitChainIsUnique | StartupAutomation.py:135-151 | there is only one hit chain per point, so the loop's result is determined by the two Win32 answers |
| WindowTree.ChildWindowIsSecondInChain | StartupAutomation.py:121-151 | get_child_window_at_coordinates gives the second entry of the tree, or None when the tree is shorter |
| WindowTree.NestedWindowChain | StartupAutomation.py:135-151 | a window with one child under the point gives the chain [parent, child] |
| WindowTree.SingleWindowChain | StartupAutomation.py:135-151 | a window with no deeper child under the point gives the chain [window] |
| WindowGeometry.SetWindowCoords | StartupAutomation.py:78-93 | the window is put on top at (left, top) with flags 0; with both right and bottom nonzero it fills exactly the rectangle given, and otherwise it keeps its current width and height |
| WindowGeometry.CallRepositioner | StartupAutomation.py:100 | a call by a name that is no global of the module raises NameError for that name; `set_window_coords` repositions the window |
| WindowGeometry.SetWindowSizeAsWritten | StartupAutomation.py:95-100 | as written, every call fails with NameError for `setWindowCoords`, because that name is none of the module's globals |
| WindowGeometry.SetWindowSize | StartupAutomation.py:95-100 | corrected: the window is put on top with flags 0, stays at its current top-left corner and gets the width and height asked for, unless a new edge comes out as 0, in which case the current size is kept |
| ProcessWindows.Kept | StartupAutomation.py:48-52 | the EnumWindowsProc callback: it keeps one window when its pid is the process's |
| ProcessWindows.OwnedBy | StartupAutomation.py:41-54 | the callback over the whole enumeration, in order (its properties are the two lemmas below) |
| ProcessWindows.OwnedByAppend | StartupAutomation.py:41-54 | filtering an enumeration piece by piece gives the same windows as filtering it whole |
| ProcessWindows.OwnedByMembers | StartupAutomation.py:41-54 | a window is in the result exactly when it was enumerated and belongs to the process; the result is no longer than the enumeration |
| ProcessWindows.GetProcessWindowHandles | StartupAutomation.py:41-54 | the result is the enumerated windows of the process's pid, in enumeration order |

## Left out

- The `time.sleep` pauses and MULI_KEYPRESS_SLEEP_DELAY: timing is not modelled; only the order of events is.
- The `print` before `return False` in `type_string`: console output is not modelled.
- The second `elif char == '\n'` branch in `type_string`: the first newline branch already takes every newline, so this one can never run.
- The unused `right` and `bottom` values that `set_window_coords` recomputes in its fallback branch: nothing reads them.
- `run_program`, `get_current_window_handle`, `get_window_handle`, `get_window_name`, `bring_window_to_foreground`, `get_cursor`, `set_cursor`, `left_click` and `capslock_on`: each is one Win32 call with no logic of its own.
- `get_window_coords`: modelled as the `current` rectangle parameter. `get_foreground_window`: modelled as the `foreground`/`foregroundAt` oracle.
- `press_enter`: the same event sequence as `Typing.InputStream.PressReturn`.
- `get_all_window_handles`: it returns the enumeration itself, which the model takes as a given sequence.
- CursorPositionTool.py and WindowInfoTool.py: interactive polling tools built on the functions above.
- WindowGeometry.SetWindowCoords: the current rectangle is always passed in, although the source reads it only when right or bottom is 0.
- WindowTree.GetWindowTreeAtCoordinates: assumes the Win32 tree has finite depth, as a `depth` measure that drops at every deeper child; a cyclic answer from ChildWindowFromPoint would make the source loop forever.
- Typing.TypingReproducesText: does not model Caps Lock or non-US keyboard layouts; the decoding assumes a US layout with Caps Lock off.
- Typing.InputStream.TypeStringSafely: the foreground window is sampled once per character, as the source does; a change in focus during a character is not modelled.

## Findings

| source | as written | input that shows it | evidently intended | confidence | as-written member | corrected member |
|---|---|---|---|---|---|---|
| StartupAutomation.py:210-213 | `+` is sent as unshifted VK_OEM_PLUS and `=` as Shift+VK_OEM_PLUS | `type_string("+")` types `=` on a US layout, and `type_string("=")` types `+` | `=` unshifted and `+` shifted | medium, not executed; assumes a US layout | Keys.ClassifyAsWritten, Keys.PlusAndEqualsSwappedAsWritten, Typing.PlusAndEqualsTypedAsWritten | Keys.Classify, Keys.ClassifyTypesItself, Typing.TypingReproducesText |
| StartupAutomation.py:95-100 | `set_window_size` calls `setWindowCoords`, a name defined nowhere | any call, e.g. `set_window_size(h, 800, 600)`, raises NameError | call `set_window_coords` | high, not executed | WindowGeometry.SetWindowSizeAsWritten | WindowGeometry.SetWindowSize |
