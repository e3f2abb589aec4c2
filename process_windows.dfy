/** The windows owned by one process. EnumWindows is modelled by the sequence of
    handles it reports, in its order; GetWindowThreadProcessId by windowProcessId;
    GetProcessId by processId. */
module ProcessWindows {
  import opened Win32

  /** The handles of handles whose window belongs to process pid, in order. */
  function OwnedBy(handles: seq<Handle>, windowProcessId: Handle -> int, pid: int): seq<Handle>
  {
    if handles == [] then []
    else Kept(handles[0], windowProcessId, pid) + OwnedBy(handles[1..], windowProcessId, pid)
  }

  /** What the callback appends for one enumerated window. */
  function Kept(hwnd: Handle, windowProcessId: Handle -> int, pid: int): seq<Handle>
  {
    if windowProcessId(hwnd) == pid then [hwnd] else []
  }

  /** Filtering keeps the enumeration's order: it distributes over concatenation. */
  lemma {:induction false} OwnedByAppend(a: seq<Handle>, b: seq<Handle>, windowProcessId: Handle -> int, pid: int)
    ensures OwnedBy(a + b, windowProcessId, pid) == OwnedBy(a, windowProcessId, pid) + OwnedBy(b, windowProcessId, pid)
  {
    if a == [] {
      assert a + b == b;
    } else {
      var head := Kept(a[0], windowProcessId, pid);
      assert (a + b)[1..] == a[1..] + b;
      OwnedByAppend(a[1..], b, windowProcessId, pid);
      calc {
        OwnedBy(a + b, windowProcessId, pid);
        head + OwnedBy(a[1..] + b, windowProcessId, pid);
        head + (OwnedBy(a[1..], windowProcessId, pid) + OwnedBy(b, windowProcessId, pid));
        (head + OwnedBy(a[1..], windowProcessId, pid)) + OwnedBy(b, windowProcessId, pid);
      }
    }
  }

  /** A handle is kept exactly when it was enumerated and its window belongs to pid. */
  lemma {:induction false} OwnedByMembers(handles: seq<Handle>, windowProcessId: Handle -> int, pid: int)
    ensures forall h :: h in OwnedBy(handles, windowProcessId, pid) <==> h in handles && windowProcessId(h) == pid
    ensures |OwnedBy(handles, windowProcessId, pid)| <= |handles|
  {
    if handles != [] {
      OwnedByMembers(handles[1..], windowProcessId, pid);
      assert handles == [handles[0]] + handles[1..];
    }
  }

  /** The EnumWindows callback appends each enumerated window that belongs to the process. */
  method GetProcessWindowHandles(processHandle: Handle, processId: Handle -> int, windowProcessId: Handle -> int,
                                 enumerated: seq<Handle>)
    returns (windowList: seq<Handle>)
    ensures windowList == OwnedBy(enumerated, windowProcessId, processId(processHandle))
  {
    windowList := [];
    var pid := processId(processHandle);
    for i := 0 to |enumerated|
      invariant windowList == OwnedBy(enumerated[..i], windowProcessId, pid)
    {
      var hwnd := enumerated[i];
      if windowProcessId(hwnd) == pid {
        windowList := windowList + [hwnd];
      }
      assert enumerated[..i + 1] == enumerated[..i] + [hwnd];
      OwnedByAppend(enumerated[..i], [hwnd], windowProcessId, pid);
      assert OwnedBy([hwnd], windowProcessId, pid) == Kept(hwnd, windowProcessId, pid) by {
        assert [hwnd][1..] == [];
      }
    }
    assert enumerated[..|enumerated|] == enumerated;
  }
}
