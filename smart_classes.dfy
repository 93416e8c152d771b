/** The unique_handle of SmartClasses.h: the same owner as UniqueHandle
    without move, swap or get_address_of, instantiated with
    null_handle_traits. A Win32 HANDLE is modelled as a natural number with
    nullptr as 0; CloseHandle is the traits' logged close and is taken to
    succeed. */
module SmartClasses {
  import opened UniqueHandle

  /** A raw HANDLE value; 0 is nullptr. */
  type RawHandle = nat

  const NullPointer: RawHandle := 0

  /** null_handle_traits: invalid() is nullptr. */
  method NullHandleTraits() returns (t: Traits<RawHandle>)
    ensures t.invalid == NullPointer && t.closed == []
    ensures fresh(t)
  {
    t := new Traits(NullPointer);
  }

  /** A default-constructed null_handle holds nullptr and converts to false. */
  method DefaultNullHandle() returns (held: RawHandle, valid: bool)
    ensures held == NullPointer && !valid
  {
    var t := NullHandleTraits();
    var h := new Handle.Empty(t);
    held := h.Get();
    valid := h.IsValid();
  }

  /** reset(h) twice with the same handle, then with another, then the
      destructor: the first handle is closed once, when it is replaced, and
      the second at destruction; each reset reports a valid handle. */
  method ResetSameThenOther(first: RawHandle, second: RawHandle)
    returns (results: seq<bool>, closed: seq<RawHandle>)
    requires first != NullPointer && second != NullPointer && first != second
    ensures results == [true, true, true]
    ensures closed == [first, second]
  {
    var t := NullHandleTraits();
    var h := new Handle.Empty(t);
    var r1 := h.Reset(first);
    var r2 := h.Reset(first);
    var r3 := h.Reset(second);
    h.Destroy();
    results := [r1, r2, r3];
    closed := t.closed;
  }

  /** reset() with no argument on an owning handle closes it once and leaves
      the handle invalid; a second reset() closes nothing more, and neither
      does the destructor. */
  method ResetToNull(v: RawHandle) returns (results: seq<bool>, closed: seq<RawHandle>)
    requires v != NullPointer
    ensures results == [false, false]
    ensures closed == [v]
  {
    var t := NullHandleTraits();
    var h := new Handle(t, v);
    var r1 := h.Reset(NullPointer);
    var r2 := h.Reset(NullPointer);
    h.Destroy();
    results := [r1, r2];
    closed := t.closed;
  }

  /** release() hands the handle out without closing it, so the destructor
      afterwards closes nothing. */
  method ReleaseThenDestroy(v: RawHandle) returns (got: RawHandle, valid: bool, closed: seq<RawHandle>)
    ensures got == v && !valid && closed == []
  {
    var t := NullHandleTraits();
    var h := new Handle(t, v);
    got := h.Release();
    valid := h.IsValid();
    h.Destroy();
    closed := t.closed;
  }

  /** The destructor of an owning null_handle closes exactly its handle. */
  method DestroyOwning(v: RawHandle) returns (held: RawHandle, closed: seq<RawHandle>)
    ensures held == v
    ensures closed == if v == NullPointer then [] else [v]
  {
    var t := NullHandleTraits();
    var h := new Handle(t, v);
    held := h.Get();
    h.Destroy();
    closed := t.closed;
  }
}
