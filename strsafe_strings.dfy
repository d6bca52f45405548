/** Null-terminated strings as sequences of code units: finding the
    terminator, the characters in front of it, and writing a terminated
    run of characters into a buffer. */
module StrSafeStrings {
  import opened StrSafeBase

  predicate ZeroFree(s: seq<CodeUnit>) {
    forall j :: 0 <= j < |s| ==> s[j] != 0
  }

  /** A C string: somewhere in the readable units there is a terminator. */
  predicate IsCString(s: seq<CodeUnit>) {
    exists i :: 0 <= i < |s| && s[i] == 0
  }

  /** The bounded scan: the index of the first zero in s[from..limit],
      looking at no unit outside that range. */
  function FindZero(s: seq<CodeUnit>, from: nat, limit: nat): (r: Option<nat>)
    requires limit <= |s|
    ensures r.Some? ==> from <= r.value < limit && s[r.value] == 0
    ensures r.Some? ==> forall j :: from <= j < r.value ==> s[j] != 0
    ensures r.None? <==> forall j :: from <= j < limit ==> s[j] != 0
    decreases limit - from
  {
    if from >= limit then None
    else if s[from] == 0 then Some(from)
    else FindZero(s, from + 1, limit)
  }

  /** The scan stops at the first terminator, whichever limit it is given
      as long as the limit lies beyond that terminator. */
  lemma FindZeroIsFirst(s: seq<CodeUnit>, from: nat, limit: nat, i: nat)
    requires limit <= |s| && from <= i < limit && s[i] == 0
    requires forall j :: from <= j < i ==> s[j] != 0
    ensures FindZero(s, from, limit) == Some(i)
  {
  }

  /** strlen: the number of units in front of the first terminator. */
  function StrLen(s: seq<CodeUnit>): (n: nat)
    requires IsCString(s)
    ensures n < |s| && s[n] == 0
    ensures forall j :: 0 <= j < n ==> s[j] != 0
  {
    FindZero(s, 0, |s|).value
  }

  /** The characters of a C string, without its terminator. */
  function CStr(s: seq<CodeUnit>): (t: seq<CodeUnit>)
    requires IsCString(s)
    ensures ZeroFree(t) && |t| < |s| && s[|t|] == 0 && t == s[..|t|]
  {
    s[..StrLen(s)]
  }

  /** buf with data written at index at, followed by a terminator; every
      other unit as it was. */
  function Place(buf: seq<CodeUnit>, at: nat, data: seq<CodeUnit>): (r: seq<CodeUnit>)
    requires at + |data| < |buf|
    ensures |r| == |buf|
    ensures r[..at] == buf[..at] && r[at + |data| + 1..] == buf[at + |data| + 1..]
    ensures r[at..at + |data|] == data && r[at + |data|] == 0
  {
    buf[..at] + data + [0] + buf[at + |data| + 1..]
  }

  /** The unit-by-unit reading of Place. */
  lemma PlaceAt(buf: seq<CodeUnit>, at: nat, data: seq<CodeUnit>, j: nat)
    requires at + |data| < |buf| && j < |buf|
    ensures j < at ==> Place(buf, at, data)[j] == buf[j]
    ensures at <= j < at + |data| ==> Place(buf, at, data)[j] == data[j - at]
    ensures j == at + |data| ==> Place(buf, at, data)[j] == 0
    ensures at + |data| < j ==> Place(buf, at, data)[j] == buf[j]
  {
    var r := Place(buf, at, data);
    if j < at {
      assert r[..at][j] == buf[..at][j];
    } else if j < at + |data| {
      assert r[at..at + |data|][j - at] == data[j - at];
    } else if at + |data| < j {
      assert r[at + |data| + 1..][j - at - |data| - 1] == buf[at + |data| + 1..][j - at - |data| - 1];
    }
  }

  /** Two runs without a terminator make one without a terminator. */
  lemma ZeroFreeConcat(x: seq<CodeUnit>, y: seq<CodeUnit>)
    requires ZeroFree(x) && ZeroFree(y)
    ensures ZeroFree(x + y)
  {
    forall j | 0 <= j < |x + y|
      ensures (x + y)[j] != 0
    {
      if j < |x| { assert (x + y)[j] == x[j]; } else { assert (x + y)[j] == y[j - |x|]; }
    }
  }
}
