/** What StringCchCopy and StringCchCat do to a destination buffer, as
    functions from the buffer before the call to the HRESULT and the
    buffer after it. The in-place methods in module StrSafe are proved to
    produce exactly these outcomes; module StrSafeProps proves what the
    header promises about them. */
module StrSafeSpec {
  import opened StrSafeBase
  import opened StrSafeStrings

  /** The HRESULT of a call and the whole destination buffer after it. */
  datatype Outcome = Outcome(hr: HResult, buf: seq<CodeUnit>)

  /** The caller's side of the bargain: when the capacity is accepted, the
      first cap units of the buffer exist and are writable. */
  predicate Addressable(buf: seq<CodeUnit>, cap: nat) {
    ValidCapacity(cap) ==> cap <= |buf|
  }

  /** The write shared by copy and append: starting at the cursor c0, put
      as many characters of s as fit in front of the slot reserved for the
      terminator (index cap - 1 at the latest), then the terminator. The
      call is truncated, and reports STRSAFE_E_INSUFFICIENT_BUFFER, exactly
      when characters of s were left over. */
  function AppendAt(buf: seq<CodeUnit>, cap: nat, c0: nat, s: seq<CodeUnit>): Outcome
    requires c0 < cap <= |buf|
  {
    var room := cap - c0 - 1;
    if |s| <= room then Outcome(S_OK, Place(buf, c0, s))
    else Outcome(STRSAFE_E_INSUFFICIENT_BUFFER, Place(buf, c0, s[..room]))
  }

  /** StringCchCopy with source characters s: a rejected capacity leaves
      the buffer alone; otherwise s is written from index 0. */
  function CopySpec(buf: seq<CodeUnit>, cap: nat, s: seq<CodeUnit>): (o: Outcome)
    requires Addressable(buf, cap)
    ensures |o.buf| == |buf|
    ensures o.hr == S_OK <==> ValidCapacity(cap) && |s| < cap
    ensures o.hr == STRSAFE_E_INSUFFICIENT_BUFFER <==> ValidCapacity(cap) && |s| >= cap
    ensures o.hr == STRSAFE_E_INVALID_PARAMETER <==> !ValidCapacity(cap)
    ensures o.hr == STRSAFE_E_INVALID_PARAMETER ==> o.buf == buf
  {
    if !ValidCapacity(cap) then Outcome(STRSAFE_E_INVALID_PARAMETER, buf)
    else AppendAt(buf, cap, 0, s)
  }

  /** StringCchCat with source characters s: a rejected capacity, a
      buffer with no terminator among its first cap units, or a buffer
      already full (terminator in the last slot) while s still has
      characters to add, leave the buffer alone; otherwise s is written
      from the existing terminator on. */
  function CatSpec(buf: seq<CodeUnit>, cap: nat, s: seq<CodeUnit>): (o: Outcome)
    requires Addressable(buf, cap)
    ensures |o.buf| == |buf|
    ensures o.hr == STRSAFE_E_INVALID_PARAMETER ==> o.buf == buf
    ensures ValidCapacity(cap) && FindZero(buf, 0, cap) == Some(cap - 1) ==>
              o.buf == buf && (o.hr == S_OK <==> s == [])
  {
    if !ValidCapacity(cap) then Outcome(STRSAFE_E_INVALID_PARAMETER, buf)
    else
      match FindZero(buf, 0, cap)
      case None => Outcome(STRSAFE_E_INVALID_PARAMETER, buf)
      case Some(c0) =>
        if c0 == cap - 1 && s != [] then Outcome(STRSAFE_E_INVALID_PARAMETER, buf)
        else AppendAt(buf, cap, c0, s)
  }
}
