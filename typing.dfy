/** Typing text as virtual key events: the events each call sends, what a focused
    application receives from them, and the input stream the calls append to. */
module Typing {
  import opened Wrappers
  import opened Win32
  import opened Keys

  /** The events type_string sends for one character with the given table; nothing
      for one it cannot type. */
  function CharEvents(table: KeyTable, c: char): (r: seq<KeyEvent>)
    ensures r == [] <==> !Typeable(table, c)
    ensures |r| == 2 || |r| == 4 || r == []
  {
    match Lookup(table, c)
    case None => []
    case Some(s) => Emit(s)
  }

  /** The events sent for text, character by character, in order. */
  function Typed(table: KeyTable, text: string): seq<KeyEvent>
  {
    if text == [] then [] else CharEvents(table, text[0]) + Typed(table, text[1..])
  }

  /** type_string has a branch for c. */
  predicate Typeable(table: KeyTable, c: char)
  {
    Lookup(table, c).Some?
  }

  predicate AllSupported(table: KeyTable, text: string)
  {
    forall i :: 0 <= i < |text| ==> Typeable(table, text[i])
  }

  /** The position of the first character that cannot be typed, or |text| if there is none. */
  function SupportedPrefix(table: KeyTable, text: string): (k: nat)
    ensures k <= |text|
    ensures forall i :: 0 <= i < k ==> Typeable(table, text[i])
    ensures k < |text| ==> !Typeable(table, text[k])
  {
    if text == [] || Lookup(table, text[0]).None? then 0 else 1 + SupportedPrefix(table, text[1..])
  }

  /** window_is_foreground: handle is a real window and the platform reports it as
      the foreground window. */
  predicate WindowIsForeground(handle: Handle, foreground: Handle)
  {
    handle != 0 && handle == foreground
  }

  /** Among the first n foreground checks, where foregroundAt(i) answers check i,
      the index of the first that fails, or n if none fails. */
  function FocusPrefix(handle: Handle, foregroundAt: nat -> Handle, n: nat): (k: nat)
    ensures k <= n
    ensures forall i :: 0 <= i < k ==> WindowIsForeground(handle, foregroundAt(i))
    ensures k < n ==> !WindowIsForeground(handle, foregroundAt(k))
  {
    if n == 0 then 0
    else
      var k := FocusPrefix(handle, foregroundAt, n - 1);
      if k == n - 1 && WindowIsForeground(handle, foregroundAt(n - 1)) then n else k
  }

  /** The change of the number of Shift keys held down caused by one event. */
  function ShiftStep(e: KeyEvent): int
  {
    if e == Down(VK_SHIFT) then 1 else if e == Up(VK_SHIFT) then -1 else 0
  }

  /** How many Shift presses are still held after the events. */
  function ShiftDepth(events: seq<KeyEvent>): int
  {
    if events == [] then 0 else ShiftStep(events[0]) + ShiftDepth(events[1..])
  }

  /** The text a focused application with a US keyboard layout receives from the
      events, when they are a succession of presses, each one alone or held inside a
      Shift press; None otherwise. */
  function ReceivedText(events: seq<KeyEvent>): Option<string>
    decreases |events|
  {
    if events == [] then Some("")
    else if && |events| >= 4 && events[0] == Down(VK_SHIFT) && events[1] == Down(events[1].vk)
            && events[1].vk != VK_SHIFT && events[2] == Up(events[1].vk) && events[3] == Up(VK_SHIFT)
    then Prepend(UsLayout(Shifted(events[1].vk)), ReceivedText(events[4..]))
    else if && |events| >= 2 && events[0] == Down(events[0].vk) && events[0].vk != VK_SHIFT
            && events[1] == Up(events[0].vk)
    then Prepend(UsLayout(Plain(events[0].vk)), ReceivedText(events[2..]))
    else None
  }

  function Prepend(c: Option<char>, rest: Option<string>): Option<string>
  {
    if c.Some? && rest.Some? then Some([c.value] + rest.value) else None
  }

  lemma {:induction false} TypedAppend(table: KeyTable, a: string, b: string)
    ensures Typed(table, a + b) == Typed(table, a) + Typed(table, b)
  {
    if a == [] {
      assert a + b == b;
    } else {
      assert (a + b)[1..] == a[1..] + b;
      TypedAppend(table, a[1..], b);
    }
  }

  /** Regrouping a log of three parts, stated on its own so the loops below need not
      rediscover it at every step. */
  lemma AppendAssoc(a: seq<KeyEvent>, b: seq<KeyEvent>, c: seq<KeyEvent>)
    ensures (a + b) + c == a + (b + c)
  {
  }

  lemma TypedSnoc(table: KeyTable, text: string, i: nat)
    requires i < |text|
    ensures Typed(table, text[..i + 1]) == Typed(table, text[..i]) + CharEvents(table, text[i])
  {
    assert text[..i + 1] == text[..i] + [text[i]];
    TypedAppend(table, text[..i], [text[i]]);
  }

  lemma StopsAtUnsupported(table: KeyTable, text: string, i: nat)
    requires i < |text| && !Typeable(table, text[i]) && i <= SupportedPrefix(table, text)
    ensures SupportedPrefix(table, text) == i && !AllSupported(table, text)
  {
  }

  lemma PrefixGoesOn(table: KeyTable, text: string, i: nat)
    requires i < |text| && Typeable(table, text[i]) && i <= SupportedPrefix(table, text)
    ensures i + 1 <= SupportedPrefix(table, text)
  {
  }

  lemma TypesAllSupported(table: KeyTable, text: string)
    requires |text| <= SupportedPrefix(table, text)
    ensures SupportedPrefix(table, text) == |text| && AllSupported(table, text) && text[..|text|] == text
  {
  }

  lemma FocusLostAt(handle: Handle, foregroundAt: nat -> Handle, n: nat, i: nat)
    requires i < n && !WindowIsForeground(handle, foregroundAt(i)) && i <= FocusPrefix(handle, foregroundAt, n)
    ensures FocusPrefix(handle, foregroundAt, n) == i
  {
  }

  lemma FocusGoesOn(handle: Handle, foregroundAt: nat -> Handle, n: nat, i: nat)
    requires i < n && WindowIsForeground(handle, foregroundAt(i)) && i <= FocusPrefix(handle, foregroundAt, n)
    ensures i + 1 <= FocusPrefix(handle, foregroundAt, n)
  {
  }

  /** Typing a one-character string sends exactly that character's events. */
  lemma SingleCharTyped(table: KeyTable, c: char, before: seq<KeyEvent>, after: seq<KeyEvent>)
    requires after == before + Typed(table, [c][..SupportedPrefix(table, [c])])
    ensures after == before + CharEvents(table, c)
  {
    if Typeable(table, c) {
      assert [c][..1] == [c];
    }
  }

  /** One step of type_string_safely: a single-character type_string call after the
      first i characters extends the log to the first i + 1. */
  lemma SafeStep(table: KeyTable, text: string, i: nat, before: seq<KeyEvent>, mid: seq<KeyEvent>, after: seq<KeyEvent>)
    requires i < |text|
    requires mid == before + Typed(table, text[..i])
    requires after == mid + Typed(table, [text[i]][..SupportedPrefix(table, [text[i]])])
    ensures after == before + Typed(table, text[..i + 1])
  {
    SingleCharTyped(table, text[i], mid, after);
    TypedSnoc(table, text, i);
    AppendAssoc(before, Typed(table, text[..i]), CharEvents(table, text[i]));
  }

  /** Both tables have a branch for the same characters, so type_string stops at the
      same place whichever it uses. */
  lemma {:induction false} SupportSameInBothTables(text: string)
    ensures SupportedPrefix(AsWritten, text) == SupportedPrefix(Corrected, text)
    ensures AllSupported(AsWritten, text) <==> AllSupported(Corrected, text)
  {
    forall i | 0 <= i < |text|
      ensures Typeable(AsWritten, text[i]) <==> Typeable(Corrected, text[i])
    {
      SupportedCharacters(text[i]);
    }
    if text != [] {
      SupportSameInBothTables(text[1..]);
    }
  }

  /** Text with no '+' and no '=' sends the same events with either table. */
  lemma {:induction false} TablesAgreeOffPlusAndEquals(text: string)
    requires forall i :: 0 <= i < |text| ==> text[i] != '+' && text[i] != '='
    ensures Typed(AsWritten, text) == Typed(Corrected, text)
  {
    if text != [] {
      assert CharEvents(AsWritten, text[0]) == CharEvents(Corrected, text[0]);
      assert forall i :: 0 <= i < |text[1..]| ==> text[1..][i] == text[i + 1];
      TablesAgreeOffPlusAndEquals(text[1..]);
    }
  }

  lemma {:induction false} ShiftDepthAppend(a: seq<KeyEvent>, b: seq<KeyEvent>)
    ensures ShiftDepth(a + b) == ShiftDepth(a) + ShiftDepth(b)
  {
    if a == [] {
      assert a + b == b;
    } else {
      assert (a + b)[1..] == a[1..] + b;
      ShiftDepthAppend(a[1..], b);
    }
  }

  lemma ShiftDepthOfFew(a: KeyEvent, b: KeyEvent, c: KeyEvent, d: KeyEvent)
    ensures ShiftDepth([a]) == ShiftStep(a)
    ensures ShiftDepth([a, b]) == ShiftStep(a) + ShiftStep(b)
    ensures ShiftDepth([a, b, c]) == ShiftStep(a) + ShiftStep(b) + ShiftStep(c)
    ensures ShiftDepth([a, b, c, d]) == ShiftStep(a) + ShiftStep(b) + ShiftStep(c) + ShiftStep(d)
  {
    assert [a][1..] == [] && [b][1..] == [] && [c][1..] == [] && [d][1..] == [];
    ShiftDepthAppend([a], [b]);
    ShiftDepthAppend([a, b], [c]);
    ShiftDepthAppend([a, b, c], [d]);
    assert [a] + [b] == [a, b] && [a, b] + [c] == [a, b, c] && [a, b, c] + [d] == [a, b, c, d];
  }

  /** Within one character's events Shift is held at most once, and it is released
      by the end of them. */
  lemma CharShiftProfile(table: KeyTable, c: char)
    ensures ShiftDepth(CharEvents(table, c)) == 0
    ensures forall j :: 0 <= j <= |CharEvents(table, c)| ==> 0 <= ShiftDepth(CharEvents(table, c)[..j]) <= 1
  {
    var e := CharEvents(table, c);
    match Lookup(table, c)
    case None => {}
    case Some(Plain(k)) => {
      ShiftDepthOfFew(Down(k), Up(k), Up(k), Up(k));
      assert e[..0] == [] && e[..1] == [Down(k)] && e[..2] == e == [Down(k), Up(k)];
    }
    case Some(Shifted(k)) => {
      ShiftDepthOfFew(Down(VK_SHIFT), Down(k), Up(k), Up(VK_SHIFT));
      assert e[..0] == [] && e[..1] == [Down(VK_SHIFT)] && e[..2] == [Down(VK_SHIFT), Down(k)];
      assert e[..3] == [Down(VK_SHIFT), Down(k), Up(k)] && e[..4] == e;
      assert e == [Down(VK_SHIFT), Down(k), Up(k), Up(VK_SHIFT)];
    }
  }

  /** Typed text leaves no Shift held. */
  lemma {:induction false} TypedReleasesShift(table: KeyTable, text: string)
    ensures ShiftDepth(Typed(table, text)) == 0
  {
    if text != [] {
      CharShiftProfile(table, text[0]);
      TypedReleasesShift(table, text[1..]);
      ShiftDepthAppend(CharEvents(table, text[0]), Typed(table, text[1..]));
    }
  }

  /** Between any two characters no Shift is held: the events split at every
      character boundary, and the part before it is balanced. */
  lemma ShiftReleasedAtEveryBoundary(table: KeyTable, text: string, k: nat)
    requires k <= |text|
    ensures Typed(table, text) == Typed(table, text[..k]) + Typed(table, text[k..])
    ensures ShiftDepth(Typed(table, text[..k])) == 0
  {
    assert text == text[..k] + text[k..];
    TypedAppend(table, text[..k], text[k..]);
    TypedReleasesShift(table, text[..k]);
  }

  /** At no point while text is typed is Shift held twice, or released more often than pressed. */
  lemma {:induction false} ShiftHeldAtMostOnce(table: KeyTable, text: string)
    ensures forall j :: 0 <= j <= |Typed(table, text)| ==> 0 <= ShiftDepth(Typed(table, text)[..j]) <= 1
  {
    if text != [] {
      var e, rest := CharEvents(table, text[0]), Typed(table, text[1..]);
      assert Typed(table, text) == e + rest;
      CharShiftProfile(table, text[0]);
      ShiftHeldAtMostOnce(table, text[1..]);
      forall j | 0 <= j <= |e + rest| ensures 0 <= ShiftDepth((e + rest)[..j]) <= 1 {
        if j <= |e| {
          assert (e + rest)[..j] == e[..j];
        } else {
          assert (e + rest)[..j] == e + rest[..j - |e|];
          ShiftDepthAppend(e, rest[..j - |e|]);
        }
      }
    }
  }

  /** Typing with the corrected table reproduces the text: a focused application with
      a US layout receives exactly the characters typed. */
  lemma {:induction false} TypingReproducesText(text: string)
    requires AllSupported(Corrected, text)
    ensures ReceivedText(Typed(Corrected, text)) == Some(text)
  {
    if text != [] {
      var s := Classify(text[0]).value;
      var rest := Typed(Corrected, text[1..]);
      assert AllSupported(Corrected, text[1..]) by {
        forall i | 0 <= i < |text[1..]| ensures Typeable(Corrected, text[1..][i]) {
          assert text[1..][i] == text[i + 1];
        }
      }
      TypingReproducesText(text[1..]);
      ClassifyTypesItself(text[0]);
      assert Typed(Corrected, text) == Emit(s) + rest;
      assert [text[0]] + text[1..] == text;
      match s
      case Plain(k) => {
        assert (Emit(s) + rest)[2..] == rest;
      }
      case Shifted(k) => {
        assert (Emit(s) + rest)[4..] == rest;
      }
    }
  }

  /** With the source's own table, a supported text reaches the application intact as
      long as it holds no '+' and no '='. */
  lemma AsWrittenReproducesTextOffPlusAndEquals(text: string)
    requires AllSupported(AsWritten, text)
    requires forall i :: 0 <= i < |text| ==> text[i] != '+' && text[i] != '='
    ensures ReceivedText(Typed(AsWritten, text)) == Some(text)
  {
    SupportSameInBothTables(text);
    TablesAgreeOffPlusAndEquals(text);
    TypingReproducesText(text);
  }

  /** With the source's own table, typing "+" sends the unshifted 0xBB key and the
      application receives "="; typing "=" sends it with Shift and "+" arrives. */
  lemma PlusAndEqualsTypedAsWritten()
    ensures Typed(AsWritten, "+") == Press(VK_OEM_PLUS)
    ensures ReceivedText(Typed(AsWritten, "+")) == Some("=")
    ensures Typed(AsWritten, "=") == ShiftPress(VK_OEM_PLUS)
    ensures ReceivedText(Typed(AsWritten, "=")) == Some("+")
  {
    assert "+"[1..] == "" && "="[1..] == "";
    assert Press(VK_OEM_PLUS)[2..] == [];
    assert ShiftPress(VK_OEM_PLUS)[4..] == [];
    assert UsLayout(Plain(VK_OEM_PLUS)) == Some('=') && UsLayout(Shifted(VK_OEM_PLUS)) == Some('+');
    assert ReceivedText(Press(VK_OEM_PLUS)) == Prepend(Some('='), Some(""));
    assert ReceivedText(ShiftPress(VK_OEM_PLUS)) == Prepend(Some('+'), Some(""));
    assert ['='] + "" == "=" && ['+'] + "" == "+";
  }

  /** The mixed-case example: "Hi!" is ten events, Shift around the H and the 1 keys,
      with either table. */
  lemma HiExample(table: KeyTable)
    ensures Typed(table, "Hi!") == [Down(VK_SHIFT), Down('H' as int), Up('H' as int), Up(VK_SHIFT),
                                    Down('I' as int), Up('I' as int),
                                    Down(VK_SHIFT), Down('1' as int), Up('1' as int), Up(VK_SHIFT)]
    ensures |Typed(table, "Hi!")| == 10
  {
    assert "Hi!"[1..] == "i!";
    assert "i!"[1..] == "!";
    assert "!"[1..] == "";
  }

  /** The keyboard input stream of the platform: every keybd_event call made so far,
      oldest first. */
  class InputStream {
    var sent: seq<KeyEvent>

    constructor ()
      ensures sent == []
    {
      sent := [];
    }

    /** keybd_event(vk, 0, flags, 0). */
    method KeybdEvent(vk: int, flags: int)
      modifies this
      ensures sent == old(sent) + [KeyEvent(vk, flags)]
    {
      sent := sent + [KeyEvent(vk, flags)];
    }

    method PressKey(vk: int)
      modifies this
      ensures sent == old(sent) + Press(vk)
    {
      KeybdEvent(vk, 0);
      KeybdEvent(vk, KEYEVENTF_KEYUP);
    }

    method PressShiftSomething(vk: int)
      modifies this
      ensures sent == old(sent) + ShiftPress(vk)
    {
      KeybdEvent(VK_SHIFT, 0);
      PressKey(vk);
      KeybdEvent(VK_SHIFT, KEYEVENTF_KEYUP);
    }

    method PressReturn()
      modifies this
      ensures sent == old(sent) + Press(VK_RETURN)
    {
      PressKey(VK_RETURN);
    }

    method PressPrintScreen()
      modifies this
      ensures sent == old(sent) + Press(VK_SNAPSHOT)
    {
      PressKey(VK_SNAPSHOT);
    }

    /** The dispatch of type_string: a plain press, or a press with Shift held. */
    method PressStroke(s: Stroke)
      modifies this
      ensures sent == old(sent) + Emit(s)
    {
      match s
      case Plain(k) => PressKey(k);
      case Shifted(k) => PressShiftSomething(k);
    }

    /** Presses Enter only if handle is the foreground window, at the one check made. */
    method PressEnterSafely(handle: Handle, foreground: Handle) returns (ok: bool)
      modifies this
      ensures ok <==> handle != 0 && handle == foreground
      ensures sent == old(sent) + (if ok then Press(VK_RETURN) else [])
    {
      if handle != 0 && WindowIsForeground(handle, foreground) {
        PressReturn();
        return true;
      }
      return false;
    }

    /** Types text with the given table, stopping at the first character it cannot
        type; what was already typed stays typed. type_string itself is
        TypeString(AsWritten, text). */
    method TypeString(table: KeyTable, text: string) returns (ok: bool)
      modifies this
      ensures ok <==> AllSupported(table, text)
      ensures sent == old(sent) + Typed(table, text[..SupportedPrefix(table, text)])
    {
      ghost var before := sent;
      var i := 0;
      while i < |text|
        invariant i <= SupportedPrefix(table, text)
        invariant sent == before + Typed(table, text[..i])
      {
        var stroke := Lookup(table, text[i]);
        if stroke.None? {
          StopsAtUnsupported(table, text, i);
          return false;
        }
        PrefixGoesOn(table, text, i);
        TypedSnoc(table, text, i);
        PressStroke(stroke.value);
        AppendAssoc(before, Typed(table, text[..i]), Emit(stroke.value));
        i := i + 1;
      }
      TypesAllSupported(table, text);
      return true;
    }

    /** Types text one character at a time, checking before each character that
        handle is still the foreground window; foregroundAt(i) is the answer to the
        check before character i. The result of each single-character type_string
        call is ignored. type_string_safely itself is TypeStringSafely(AsWritten, ...). */
    method TypeStringSafely(table: KeyTable, text: string, handle: Handle, foregroundAt: nat -> Handle)
      returns (ok: bool)
      modifies this
      ensures ok <==> handle != 0 && FocusPrefix(handle, foregroundAt, |text|) == |text|
      ensures sent == old(sent) + Typed(table, text[..FocusPrefix(handle, foregroundAt, |text|)])
    {
      if handle == 0 {
        if |text| > 0 {
          FocusLostAt(handle, foregroundAt, |text|, 0);
        }
        return false;
      }
      ghost var before := sent;
      var i := 0;
      while i < |text|
        invariant i <= FocusPrefix(handle, foregroundAt, |text|)
        invariant sent == before + Typed(table, text[..i])
      {
        if !WindowIsForeground(handle, foregroundAt(i)) {
          FocusLostAt(handle, foregroundAt, |text|, i);
          return false;
        }
        FocusGoesOn(handle, foregroundAt, |text|, i);
        ghost var mid := sent;
        var typed := TypeString(table, [text[i]]);
        SafeStep(table, text, i, before, mid, sent);
        i := i + 1;
      }
      assert text[..|text|] == text;
      return true;
    }
  }
}
