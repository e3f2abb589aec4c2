/** Virtual-key events and the table that tells, for each character type_string can
    type, which key it presses and whether Shift is held around the press. */
module Keys {
  import opened Wrappers
  import opened Win32

  /** One keybd_event call: a virtual key and the flags word. */
  datatype KeyEvent = KeyEvent(vk: int, flags: int)

  function Down(vk: int): KeyEvent { KeyEvent(vk, 0) }

  function Up(vk: int): KeyEvent { KeyEvent(vk, KEYEVENTF_KEYUP) }

  /** The two events of press_key: the key goes down, then up. */
  function Press(vk: int): seq<KeyEvent> { [Down(vk), Up(vk)] }

  /** The events of press_shift_something: Shift down, a press of vk, Shift up. */
  function ShiftPress(vk: int): seq<KeyEvent> { [Down(VK_SHIFT)] + Press(vk) + [Up(VK_SHIFT)] }

  /** How one character is typed: a key pressed alone, or pressed with Shift held. */
  datatype Stroke = Plain(vk: int) | Shifted(vk: int)

  function Emit(s: Stroke): seq<KeyEvent>
  {
    match s
    case Plain(k) => Press(k)
    case Shifted(k) => ShiftPress(k)
  }

  /** The characters type_string knows how to type. */
  predicate IsSupported(c: char)
  {
    || 'A' <= c <= 'Z'
    || 'a' <= c <= 'z'
    || '0' <= c <= '9'
    || c in {'\t', '\n', ' ',
             '+', ',', '-', '.', '/', '\'',
             '=', '<', '_', '>', '?', '"',
             '!', '@', '#', '$', '%', '^', '&', '*', '(', ')'}
  }

  /** The character classification of type_string exactly as the source writes it,
      branch by branch. */
  function ClassifyAsWritten(c: char): (r: Option<Stroke>)
    ensures r.Some? ==> 0 < r.value.vk < 256 && r.value.vk != VK_SHIFT
  {
    var code := c as int;
    if 65 <= code <= 90 then Some(Shifted(code))
    else if 97 <= code <= 122 then Some(Plain(code - 32))
    else if 48 <= code <= 57 then Some(Plain(code))
    else if c == '\t' then Some(Plain(VK_TAB))
    else if c == '\n' then Some(Plain(VK_RETURN))
    else if c == ' ' then Some(Plain(VK_SPACE))
    else if c == '+' then Some(Plain(0xBB))
    else if c == '=' then Some(Shifted(0xBB))
    else if c == ',' then Some(Plain(0xBC))
    else if c == '<' then Some(Shifted(0xBC))
    else if c == '-' then Some(Plain(0xBD))
    else if c == '_' then Some(Shifted(0xBD))
    else if c == '.' then Some(Plain(0xBE))
    else if c == '>' then Some(Shifted(0xBE))
    else if c == '/' then Some(Plain(0xBF))
    else if c == '?' then Some(Shifted(0xBF))
    else if c == '\'' then Some(Plain(0xDE))
    else if c == '"' then Some(Shifted(0xDE))
    else if c == '!' then Some(Shifted('1' as int))
    else if c == '@' then Some(Shifted('2' as int))
    else if c == '#' then Some(Shifted('3' as int))
    else if c == '$' then Some(Shifted('4' as int))
    else if c == '%' then Some(Shifted('5' as int))
    else if c == '^' then Some(Shifted('6' as int))
    else if c == '&' then Some(Shifted('7' as int))
    else if c == '*' then Some(Shifted('8' as int))
    else if c == '(' then Some(Shifted('9' as int))
    else if c == ')' then Some(Shifted('0' as int))
    else None
  }

  /** The classification the rest of the model uses: the source's table with the
      strokes for '+' and '=' exchanged, so that every supported character is
      typed as itself on a US keyboard layout. */
  function Classify(c: char): (r: Option<Stroke>)
    ensures r.Some? ==> 0 < r.value.vk < 256 && r.value.vk != VK_SHIFT
  {
    if c == '=' then Some(Plain(VK_OEM_PLUS))
    else if c == '+' then Some(Shifted(VK_OEM_PLUS))
    else ClassifyAsWritten(c)
  }

  /** Which character table type_string consults: the source's own, or the one with
      the strokes for '+' and '=' put right. */
  datatype KeyTable = AsWritten | Corrected

  function Lookup(table: KeyTable, c: char): (r: Option<Stroke>)
    ensures r.Some? ==> 0 < r.value.vk < 256 && r.value.vk != VK_SHIFT
  {
    match table
    case AsWritten => ClassifyAsWritten(c)
    case Corrected => Classify(c)
  }

  /** The characters with a branch in type_string are exactly the supported ones,
      in the source's table and in the corrected one. */
  lemma SupportedCharacters(c: char)
    ensures ClassifyAsWritten(c).Some? <==> IsSupported(c)
    ensures Classify(c).Some? <==> IsSupported(c)
  {
  }

  /** Every character the corrected table can type is typed as itself on a US layout. */
  lemma ClassifyTypesItself(c: char)
    requires Classify(c).Some?
    ensures UsLayout(Classify(c).value) == Some(c)
  {
  }

  /** The punctuation keys of the US layout: the character without and with Shift. */
  const UsOemKeys: map<int, (char, char)> :=
    map[VK_OEM_1 := (';', ':'), VK_OEM_PLUS := ('=', '+'), VK_OEM_COMMA := (',', '<'),
        VK_OEM_MINUS := ('-', '_'), VK_OEM_PERIOD := ('.', '>'), VK_OEM_2 := ('/', '?'),
        VK_OEM_3 := ('`', '~'), VK_OEM_4 := ('[', '{'), VK_OEM_5 := ('\\', '|'),
        VK_OEM_6 := (']', '}'), VK_OEM_7 := ('\'', '"')]

  /** The character a focused application receives for a stroke on a US keyboard
      layout (Caps Lock off), or None for a stroke that types no character. */
  function UsLayout(s: Stroke): Option<char>
  {
    match s
    case Plain(k) =>
      if 'A' as int <= k <= 'Z' as int then Some((k + 32) as char)
      else if '0' as int <= k <= '9' as int then Some(k as char)
      else if k == VK_TAB then Some('\t')
      else if k == VK_RETURN then Some('\n')
      else if k == VK_SPACE then Some(' ')
      else if k in UsOemKeys then Some(UsOemKeys[k].0)
      else None
    case Shifted(k) =>
      if 'A' as int <= k <= 'Z' as int then Some(k as char)
      else if '0' as int <= k <= '9' as int then Some(")!@#$%^&*("[k - '0' as int])
      else if k in UsOemKeys then Some(UsOemKeys[k].1)
      else None
  }

  /** The source's table sends '+' as the unshifted 0xBB key and '=' with Shift: on a
      US layout these produce each other. */
  lemma PlusAndEqualsSwappedAsWritten()
    ensures ClassifyAsWritten('+') == Some(Plain(0xBB)) && UsLayout(Plain(0xBB)) == Some('=')
    ensures ClassifyAsWritten('=') == Some(Shifted(0xBB)) && UsLayout(Shifted(0xBB)) == Some('+')
  {
  }

  /** Every other supported character is classified as the source writes it, and is
      typed as itself. */
  lemma AsWrittenCorrectExceptPlusAndEquals(c: char)
    requires IsSupported(c) && c != '+' && c != '='
    ensures ClassifyAsWritten(c) == Classify(c)
    ensures UsLayout(ClassifyAsWritten(c).value) == Some(c)
  {
  }

  /** A lower-case letter is typed by the unshifted key of its upper-case code; the
      upper-case letter presses the same key with Shift held. */
  lemma LetterCases(c: char)
    requires 'a' <= c <= 'z'
    ensures Classify(c) == Some(Plain(c as int - 32))
    ensures Classify((c as int - 32) as char) == Some(Shifted(c as int - 32))
  {
  }

  /** The source's table for digits, whitespace and punctuation. */
  lemma SourceKeyTable()
    ensures forall c :: '0' <= c <= '9' ==> ClassifyAsWritten(c) == Some(Plain(c as int))
    ensures ClassifyAsWritten('\t') == Some(Plain(VK_TAB))
    ensures ClassifyAsWritten('\n') == Some(Plain(VK_RETURN))
    ensures ClassifyAsWritten(' ') == Some(Plain(VK_SPACE))
    ensures forall i :: 0 <= i < 6 ==>
      && ClassifyAsWritten("+,-./'"[i]) == Some(Plain([0xBB, 0xBC, 0xBD, 0xBE, 0xBF, 0xDE][i]))
      && ClassifyAsWritten("=<_>?\""[i]) == Some(Shifted([0xBB, 0xBC, 0xBD, 0xBE, 0xBF, 0xDE][i]))
    ensures forall i :: 0 <= i < 10 ==>
      ClassifyAsWritten("!@#$%^&*()"[i]) == Some(Shifted("1234567890"[i] as int))
  {
  }
}
