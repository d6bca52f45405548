/** What the header promises of copy and append, proved of the outcome
    functions that the in-place methods are shown to compute. Throughout,
    s is the source's characters (the units in front of its terminator),
    so it holds no zero. */
module StrSafeProps {
  import opened StrSafeBase
  import opened StrSafeStrings
  import opened StrSafeLength
  import opened StrSafeSpec

  /** After data has been placed at index at of a buffer whose first at
      units hold no terminator, the string in the buffer is exactly
      at + |data| units long. */
  lemma LengthOfPlaced(buf: seq<CodeUnit>, cap: nat, at: nat, data: seq<CodeUnit>)
    requires ValidCapacity(cap) && at + |data| < cap <= |buf|
    requires forall j :: 0 <= j < at ==> buf[j] != 0
    requires ZeroFree(data)
    ensures StringCchLength(Place(buf, at, data), cap) == Counted(S_OK, at + |data|)
  {
    var r := Place(buf, at, data);
    forall j | 0 <= j < at + |data|
      ensures r[j] != 0
    {
      PlaceAt(buf, at, data, j);
    }
    FindZeroIsFirst(r, 0, cap, at + |data|);
  }

  /** A zero or over-ceiling capacity is rejected by copy and append
      alike, and the destination is not touched. */
  lemma RejectedCapacity(buf: seq<CodeUnit>, cap: nat, s: seq<CodeUnit>)
    requires !ValidCapacity(cap)
    ensures CopySpec(buf, cap, s) == Outcome(STRSAFE_E_INVALID_PARAMETER, buf)
    ensures CatSpec(buf, cap, s) == Outcome(STRSAFE_E_INVALID_PARAMETER, buf)
  {
  }

  /** A source that fits is copied whole: S_OK, the buffer holds exactly
      the source's characters and a terminator, the string length read back
      is the source's length, and nothing after the terminator changes. */
  lemma CopyFits(buf: seq<CodeUnit>, cap: nat, s: seq<CodeUnit>)
    requires ValidCapacity(cap) && cap <= |buf|
    requires ZeroFree(s) && |s| < cap
    ensures var o := CopySpec(buf, cap, s);
      o.hr == S_OK && |o.buf| == |buf| &&
      o.buf[..|s|] == s && o.buf[|s|] == 0 && o.buf[|s| + 1..] == buf[|s| + 1..] &&
      StringCchLength(o.buf, cap) == Counted(S_OK, |s|)
  {
    LengthOfPlaced(buf, cap, 0, s);
  }

  /** A source that does not fit is truncated: STRSAFE_E_INSUFFICIENT_BUFFER,
      the first cap - 1 characters of the source, a terminator in the last
      slot, and nothing at or beyond cap changes. */
  lemma CopyTruncates(buf: seq<CodeUnit>, cap: nat, s: seq<CodeUnit>)
    requires ValidCapacity(cap) && cap <= |buf|
    requires ZeroFree(s) && |s| >= cap
    ensures var o := CopySpec(buf, cap, s);
      o.hr == STRSAFE_E_INSUFFICIENT_BUFFER && |o.buf| == |buf| &&
      o.buf[..cap - 1] == s[..cap - 1] && o.buf[cap - 1] == 0 && o.buf[cap..] == buf[cap..] &&
      StringCchLength(o.buf, cap) == Counted(S_OK, cap - 1)
  {
    LengthOfPlaced(buf, cap, 0, s[..cap - 1]);
  }

  /** The existing string found by append is the one the length query
      reports. */
  lemma AppendCursor(buf: seq<CodeUnit>, cap: nat)
    requires ValidCapacity(cap) && cap <= |buf|
    requires StringCchLength(buf, cap).hr == S_OK
    ensures FindZero(buf, 0, cap) == Some(StringCchLength(buf, cap).count)
  {
    FindZeroIsFirst(buf, 0, cap, StringCchLength(buf, cap).count);
  }

  /** When the source fits after the existing string of n characters,
      append succeeds and the buffer holds the old string followed by the
      source and a terminator. This covers an empty source (the buffer is
      unchanged, even when it is full) and an empty destination (n = 0). */
  lemma CatFits(buf: seq<CodeUnit>, cap: nat, s: seq<CodeUnit>)
    requires ValidCapacity(cap) && cap <= |buf|
    requires ZeroFree(s)
    requires StringCchLength(buf, cap).hr == S_OK
    requires StringCchLength(buf, cap).count + |s| < cap
    ensures var n := StringCchLength(buf, cap).count; var o := CatSpec(buf, cap, s);
      o.hr == S_OK && |o.buf| == |buf| &&
      o.buf[..n + |s|] == buf[..n] + s && o.buf[n + |s|] == 0 &&
      o.buf[n + |s| + 1..] == buf[n + |s| + 1..] &&
      StringCchLength(o.buf, cap) == Counted(S_OK, n + |s|)
  {
    var n := StringCchLength(buf, cap).count;
    AppendCursor(buf, cap);
    var o := CatSpec(buf, cap, s);
    assert o.buf == Place(buf, n, s);
    assert o.buf[..n + |s|] == o.buf[..n] + o.buf[n..n + |s|];
    LengthOfPlaced(buf, cap, n, s);
  }

  /** When the source does not fit after the existing string, append
      reports STRSAFE_E_INSUFFICIENT_BUFFER and keeps the longest prefix of
      old string plus source that fits, terminated in the last slot; the
      old string itself is preserved. */
  lemma CatTruncates(buf: seq<CodeUnit>, cap: nat, s: seq<CodeUnit>)
    requires ValidCapacity(cap) && cap <= |buf|
    requires ZeroFree(s)
    requires StringCchLength(buf, cap).hr == S_OK
    requires StringCchLength(buf, cap).count < cap - 1
    requires StringCchLength(buf, cap).count + |s| >= cap
    ensures var n := StringCchLength(buf, cap).count; var o := CatSpec(buf, cap, s);
      o.hr == STRSAFE_E_INSUFFICIENT_BUFFER && |o.buf| == |buf| &&
      o.buf[..n] == buf[..n] &&
      o.buf[..cap - 1] == (buf[..n] + s)[..cap - 1] && o.buf[cap - 1] == 0 &&
      o.buf[cap..] == buf[cap..] &&
      StringCchLength(o.buf, cap) == Counted(S_OK, cap - 1)
  {
    var n := StringCchLength(buf, cap).count;
    AppendCursor(buf, cap);
    var o := CatSpec(buf, cap, s);
    var t := s[..cap - n - 1];
    assert o.buf == Place(buf, n, t);
    assert o.buf[..cap - 1] == o.buf[..n] + o.buf[n..n + |t|];
    assert (buf[..n] + s)[..cap - 1] == buf[..n] + t;
    LengthOfPlaced(buf, cap, n, t);
  }

  /** Append to a buffer with no terminator among its first cap units is
      rejected, and the buffer is not touched. */
  lemma CatRejectsUnterminated(buf: seq<CodeUnit>, cap: nat, s: seq<CodeUnit>)
    requires ValidCapacity(cap) && cap <= |buf|
    requires StringCchLength(buf, cap).hr != S_OK
    ensures CatSpec(buf, cap, s) == Outcome(STRSAFE_E_INVALID_PARAMETER, buf)
  {
    if FindZero(buf, 0, cap).Some? {
      FindZeroIsFirst(buf, 0, cap, FindZero(buf, 0, cap).value);
    }
  }

  /** Append of a non-empty source to a buffer that is already full (its
      terminator in the last slot) is rejected, and the buffer is not
      touched. */
  lemma CatRejectsFull(buf: seq<CodeUnit>, cap: nat, s: seq<CodeUnit>)
    requires ValidCapacity(cap) && cap <= |buf|
    requires StringCchLength(buf, cap) == Counted(S_OK, cap - 1)
    requires s != []
    ensures CatSpec(buf, cap, s) == Outcome(STRSAFE_E_INVALID_PARAMETER, buf)
  {
    AppendCursor(buf, cap);
  }

  /** Copy never writes at or beyond cap, reports one of its three codes,
      leaves the buffer alone exactly when it rejects the capacity, and on
      every other exit leaves a terminator within cap. */
  lemma CopyStaysWithinCapacity(buf: seq<CodeUnit>, cap: nat, s: seq<CodeUnit>)
    requires Addressable(buf, cap) && ZeroFree(s)
    ensures var o := CopySpec(buf, cap, s);
      |o.buf| == |buf| &&
      (o.hr == S_OK || o.hr == STRSAFE_E_INVALID_PARAMETER || o.hr == STRSAFE_E_INSUFFICIENT_BUFFER) &&
      (o.hr == STRSAFE_E_INVALID_PARAMETER <==> !ValidCapacity(cap)) &&
      (o.hr == STRSAFE_E_INVALID_PARAMETER ==> o.buf == buf) &&
      (ValidCapacity(cap) ==> o.buf[cap..] == buf[cap..] && StringCchLength(o.buf, cap).hr == S_OK)
  {
    if ValidCapacity(cap) {
      if |s| < cap {
        CopyFits(buf, cap, s);
      } else {
        CopyTruncates(buf, cap, s);
      }
    }
  }

  /** Append never writes at or beyond cap, reports one of its three
      codes, leaves the buffer alone whenever it reports
      STRSAFE_E_INVALID_PARAMETER, and on every other exit leaves a
      terminator within cap. */
  lemma CatStaysWithinCapacity(buf: seq<CodeUnit>, cap: nat, s: seq<CodeUnit>)
    requires Addressable(buf, cap) && ZeroFree(s)
    ensures var o := CatSpec(buf, cap, s);
      |o.buf| == |buf| &&
      (o.hr == S_OK || o.hr == STRSAFE_E_INVALID_PARAMETER || o.hr == STRSAFE_E_INSUFFICIENT_BUFFER) &&
      (o.hr == STRSAFE_E_INVALID_PARAMETER ==> o.buf == buf) &&
      (o.hr != STRSAFE_E_INVALID_PARAMETER ==>
         ValidCapacity(cap) && o.buf[cap..] == buf[cap..] && StringCchLength(o.buf, cap).hr == S_OK)
  {
    if ValidCapacity(cap) {
      var l := StringCchLength(buf, cap);
      if l.hr != S_OK {
        CatRejectsUnterminated(buf, cap, s);
      } else if l.count + |s| < cap {
        CatFits(buf, cap, s);
      } else if l.count < cap - 1 {
        CatTruncates(buf, cap, s);
      } else {
        CatRejectsFull(buf, cap, s);
      }
    }
  }

  /** Writing x at index at and then y right after it is writing x + y. */
  lemma PlaceTwice(buf: seq<CodeUnit>, at: nat, x: seq<CodeUnit>, y: seq<CodeUnit>)
    requires at + |x| + |y| < |buf|
    ensures Place(Place(buf, at, x), at + |x|, y) == Place(buf, at, x + y)
  {
    var once := Place(buf, at, x);
    var twice := Place(once, at + |x|, y);
    var whole := Place(buf, at, x + y);
    forall j | 0 <= j < |buf|
      ensures twice[j] == whole[j]
    {
      PlaceAt(buf, at, x, j);
      PlaceAt(once, at + |x|, y, j);
      PlaceAt(buf, at, x + y, j);
    }
  }

  /** An append that fits writes the source at the existing terminator. */
  lemma CatAtCursor(buf: seq<CodeUnit>, cap: nat, s: seq<CodeUnit>)
    requires ValidCapacity(cap) && cap <= |buf|
    requires StringCchLength(buf, cap).hr == S_OK
    requires StringCchLength(buf, cap).count + |s| < cap
    ensures CatSpec(buf, cap, s) == Outcome(S_OK, Place(buf, StringCchLength(buf, cap).count, s))
  {
    AppendCursor(buf, cap);
  }

  /** Appending y to a buffer that holds x from index 0 writes x + y from
      index 0. */
  lemma CatOntoPlaced(buf: seq<CodeUnit>, cap: nat, x: seq<CodeUnit>, y: seq<CodeUnit>)
    requires ValidCapacity(cap) && cap <= |buf|
    requires ZeroFree(x) && ZeroFree(y) && |x| + |y| < cap
    ensures CatSpec(Place(buf, 0, x), cap, y) == Outcome(S_OK, Place(buf, 0, x + y))
  {
    LengthOfPlaced(buf, cap, 0, x);
    CatAtCursor(Place(buf, 0, x), cap, y);
    PlaceTwice(buf, 0, x, y);
  }

  /** Copying a, then appending b, then appending c, all within an ample
      capacity, leaves the same buffer as copying a + b + c at once. */
  lemma CopyCatCatIsCopy(buf: seq<CodeUnit>, cap: nat, a: seq<CodeUnit>, b: seq<CodeUnit>, c: seq<CodeUnit>)
    requires ValidCapacity(cap) && cap <= |buf|
    requires ZeroFree(a) && ZeroFree(b) && ZeroFree(c)
    requires |a| + |b| + |c| < cap
    ensures var o1 := CopySpec(buf, cap, a);
      var o2 := CatSpec(o1.buf, cap, b);
      var o3 := CatSpec(o2.buf, cap, c);
      o1.hr == S_OK && o2.hr == S_OK && o3.hr == S_OK &&
      o3.buf == CopySpec(buf, cap, a + b + c).buf
  {
    assert CopySpec(buf, cap, a) == Outcome(S_OK, Place(buf, 0, a));
    CatOntoPlaced(buf, cap, a, b);
    ZeroFreeConcat(a, b);
    CatOntoPlaced(buf, cap, a + b, c);
  }
}
