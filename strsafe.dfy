/** The in-place operations: StringCchCopy/StringCbCopy and
    StringCchCat/StringCbCat write into the caller's destination array,
    never at or beyond the capacity they are given. The A and W forms run
    the same algorithm over code units of different widths. */
module StrSafe {
  import opened StrSafeBase
  import opened StrSafeStrings
  import opened StrSafeSpec

  /** The copy loop shared by copy and append: copies the source from the
      cursor c0 until its terminator or until only the terminator slot at
      cap - 1 is left, then terminates. */
  method AppendFrom(dest: array<CodeUnit>, cap: nat, c0: nat, src: seq<CodeUnit>)
    returns (hr: HResult)
    requires c0 < cap <= dest.Length
    requires IsCString(src)
    modifies dest
    ensures Outcome(hr, dest[..]) == AppendAt(old(dest[..]), cap, c0, CStr(src))
  {
    ghost var before := dest[..];
    ghost var s := CStr(src);
    var room := cap - c0 - 1;
    var k := 0;
    while k < room && src[k] != 0
      invariant k <= room && k <= |s|
      invariant forall j :: 0 <= j < k ==> dest[c0 + j] == s[j]
      invariant forall j :: 0 <= j < dest.Length && !(c0 <= j < c0 + k) ==> dest[j] == before[j]
    {
      dest[c0 + k] := src[k];
      k := k + 1;
    }
    assert src[k] == 0 ==> k == |s|;
    dest[c0 + k] := 0;
    hr := if src[k] == 0 then S_OK else STRSAFE_E_INSUFFICIENT_BUFFER;
    ghost var written := if |s| <= room then s else s[..room];
    assert |written| == k;
    forall j | 0 <= j < dest.Length
      ensures dest[..][j] == Place(before, c0, written)[j]
    {
      PlaceAt(before, c0, written, j);
    }
  }

  /** StringCchCopy(pszDest, cchDest, pszSrc). */
  method StringCchCopy(dest: array<CodeUnit>, cchDest: nat, src: seq<CodeUnit>)
    returns (hr: HResult)
    requires IsCString(src)
    requires Addressable(dest[..], cchDest)
    modifies dest
    ensures Outcome(hr, dest[..]) == CopySpec(old(dest[..]), cchDest, CStr(src))
  {
    if cchDest == 0 || cchDest > STRSAFE_MAX_CCH {
      return STRSAFE_E_INVALID_PARAMETER;
    }
    hr := AppendFrom(dest, cchDest, 0, src);
  }

  /** StringCchCat(pszDest, cchDest, pszSrc): finds the existing
      terminator, then appends from it. */
  method StringCchCat(dest: array<CodeUnit>, cchDest: nat, src: seq<CodeUnit>)
    returns (hr: HResult)
    requires IsCString(src)
    requires Addressable(dest[..], cchDest)
    modifies dest
    ensures Outcome(hr, dest[..]) == CatSpec(old(dest[..]), cchDest, CStr(src))
  {
    if cchDest == 0 || cchDest > STRSAFE_MAX_CCH {
      return STRSAFE_E_INVALID_PARAMETER;
    }
    var c0 := 0;
    while c0 < cchDest && dest[c0] != 0
      invariant c0 <= cchDest
      invariant forall j :: 0 <= j < c0 ==> dest[j] != 0
    {
      c0 := c0 + 1;
    }
    if c0 == cchDest {
      assert FindZero(dest[..], 0, cchDest).None?;
      return STRSAFE_E_INVALID_PARAMETER;
    }
    FindZeroIsFirst(dest[..], 0, cchDest, c0);
    if c0 == cchDest - 1 && src[0] != 0 {
      assert CStr(src) != [];
      return STRSAFE_E_INVALID_PARAMETER;
    }
    assert c0 == cchDest - 1 ==> CStr(src) == [];
    hr := AppendFrom(dest, cchDest, c0, src);
  }

  /** StringCbCopy(pszDest, cbDest, pszSrc) for code units of unitSize
      bytes (1 for StringCbCopyA, sizeof(wchar_t) for StringCbCopyW): the
      byte capacity is rounded down to whole units. */
  method StringCbCopy(dest: array<CodeUnit>, cbDest: nat, src: seq<CodeUnit>, unitSize: nat)
    returns (hr: HResult)
    requires unitSize > 0
    requires IsCString(src)
    requires Addressable(dest[..], cbDest / unitSize)
    modifies dest
    ensures Outcome(hr, dest[..]) == CopySpec(old(dest[..]), cbDest / unitSize, CStr(src))
  {
    hr := StringCchCopy(dest, cbDest / unitSize, src);
  }

  /** StringCbCat(pszDest, cbDest, pszSrc) for code units of unitSize
      bytes, as StringCbCopy. */
  method StringCbCat(dest: array<CodeUnit>, cbDest: nat, src: seq<CodeUnit>, unitSize: nat)
    returns (hr: HResult)
    requires unitSize > 0
    requires IsCString(src)
    requires Addressable(dest[..], cbDest / unitSize)
    modifies dest
    ensures Outcome(hr, dest[..]) == CatSpec(old(dest[..]), cbDest / unitSize, CStr(src))
  {
    hr := StringCchCat(dest, cbDest / unitSize, src);
  }
}
