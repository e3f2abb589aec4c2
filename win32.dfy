/** Names and constants of the Windows API used by the automation functions.
    Window and process handles are the platform's integers; 0 is the null handle. */
module Win32 {

  type Handle = int

  /** keybd_event flag that marks a key release (a press has flags 0). */
  const KEYEVENTF_KEYUP: int := 0x0002

  /** SetWindowPos insert-after value that puts the window at the top of the Z order. */
  const HWND_TOP: Handle := 0

  // Virtual-key codes.
  const VK_TAB: int := 0x09
  const VK_RETURN: int := 0x0D
  const VK_SHIFT: int := 0x10
  const VK_SPACE: int := 0x20
  const VK_SNAPSHOT: int := 0x2C
  const VK_OEM_1: int := 0xBA       // ;:
  const VK_OEM_PLUS: int := 0xBB    // =+
  const VK_OEM_COMMA: int := 0xBC   // ,<
  const VK_OEM_MINUS: int := 0xBD   // -_
  const VK_OEM_PERIOD: int := 0xBE  // .>
  const VK_OEM_2: int := 0xBF       // /?
  const VK_OEM_3: int := 0xC0       // `~
  const VK_OEM_4: int := 0xDB       // [{
  const VK_OEM_5: int := 0xDC       // \|
  const VK_OEM_6: int := 0xDD       // ]}
  const VK_OEM_7: int := 0xDE       // '"
}
