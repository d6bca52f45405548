# libstrsafe string operations in Dafny

This project models the core of libstrsafe, a C library that follows the
Windows SDK Strsafe API. The modelled operations are bounded and always
null-terminated:

- `StringCchCopy` / `StringCbCopy` copy a C string into a destination of
  fixed capacity. They truncate when needed and always terminate.
- `StringCchCat` / `StringCbCat` find the terminator already in the
  destination and append the source there, with the same rules.
- `StringCchLength` / `StringCbLength` scan at most `cchMax` units for a
  terminator.

The model also has the shared vocabulary: the HRESULT codes, `SUCCEEDED`
and `FAILED`, the flag bits, and the ceiling `STRSAFE_MAX_CCH = 0x7fffffff`.

Layout:

- `strsafe_base.dfy` (`StrSafeBase`): result codes, flags, ceiling, and the `CodeUnit` type.
- `strsafe_strings.dfy` (`StrSafeStrings`): the bounded terminator scan `FindZero`, C-string helpers, and `Place`. `Place` writes a run of units plus a terminator into a buffer.
- `strsafe_length.dfy` (`StrSafeLength`): `StringCchLength` and `StringCbLength` as pure functions.
- `strsafe_spec.dfy` (`StrSafeSpec`): `CopySpec` and `CatSpec` give the HRESULT and the whole buffer each call leaves behind.
- `strsafe.dfy` (`StrSafe`): the in-place methods over `array<CodeUnit>`, with `modifies dest` and scan/copy loops. Each method is proved to produce exactly the `CopySpec` or `CatSpec` outcome.
- `strsafe_props.dfy` (`StrSafeProps`): the properties the header promises, proved of those outcomes.
- `strsafe_tests.dfy` (`StrSafeTests`): the scenarios of `tests/StringCbCatA-t.c`, replayed on one destination array that is mutated across calls, plus copy and length scenarios.

Modelling choices:

- A and W forms. The A (narrow) and W (wide) forms run the same algorithm,
  so there is one model over `CodeUnit`, a code unit of up to 32 bits.
- Byte capacities. A `Cb` operation takes a byte count plus the unit size:
  1 for the A forms and `sizeof(wchar_t)` for the W forms. The unit size
  depends on the platform, so it is a parameter. The byte count is rounded
  down to whole units, and then the same ceiling check applies as in the
  `Cch` form. With unit size 1, as in the test, `StringCbCatA` is
  `StringCchCatA`. Because of the rounding, a byte count a little above
  `STRSAFE_MAX_CCH * unitSize` (short of one more whole unit) is accepted
  as `STRSAFE_MAX_CCH` units.
- Source of the behaviour. The C implementation files of copy, append and
  length are not part of this model. Their behaviour comes from the doc
  comments in `src/strsafe.h` and from `tests/StringCbCatA-t.c`.
- Full destination. The test (lines 33-37) appends a non-empty source to a
  destination whose terminator is already in the last slot. It expects
  `STRSAFE_E_INVALID_PARAMETER` with the destination unchanged. The header
  (lines 152-154) names only a missing terminator as a cause. The model
  follows the test. For an empty source on a full destination, neither file
  settles the result. The model returns `S_OK` and leaves the buffer as it
  was, because appending nothing to a terminated string succeeds.
- Truncation. A call reports truncation only when the source still had
  characters once the writable room was used up. A source that exactly
  fills the room succeeds.
- Length queries. A capacity of 0 fails, because no terminator can be found
  within it. On failure the header leaves the reported length undefined.
  The model reports 0.

## Model

| member | source | states |
|---|---|---|
| StrSafeBase.SucceededFailedComplement | src/strsafe.h:74-84 | SUCCEEDED holds exactly of S_OK; FAILED is its negation |
| StrSafeBase.ErrorCodesAreDistinctBits | src/strsafe.h:44-50 | END_OF_FILE, INVALID_PARAMETER and INSUFFICIENT_BUFFER are each a single bit, pairwise disjoint, and FAILED holds of each |
| StrSafeBase.FlagsAreDistinctBits | src/strsafe.h:52-59 | the five extended-form flags are single bits, pairwise disjoint (their union is 0x1f00), and clear of the low byte |
| StrSafeStrings.FindZero | src/strsafe.h:478-480 | the bounded scan returns the index of the first zero in the range, or none exactly when the range holds no zero |
| StrSafeLength.StringCchLength | src/strsafe.h:478-512 | S_OK exactly when cchMax is within the ceiling and a terminator lies in the first cchMax units; otherwise INVALID_PARAMETER; on success the length is the index of the first terminator, excludes it, and is below cchMax |
| StrSafeLength.LengthIsFirstZero | src/strsafe.h:478-496 | whenever the first terminator lies at n < cchMax, the query returns S_OK with length n |
| StrSafeLength.StringCbLength | src/strsafe.h:859-893 | the byte form succeeds exactly when the unit form over cbMax / unitSize does; the length in bytes is the unit length times the unit size and leaves room for the terminator within cbMax |
| StrSafeSpec.CopySpec | src/strsafe.h:245-269 | the outcome of a copy keeps the buffer's length; S_OK exactly when the capacity is accepted and the source is shorter than it, INSUFFICIENT_BUFFER exactly when it is accepted and the source is not shorter, INVALID_PARAMETER exactly for a rejected capacity, and then the buffer is unchanged |
| StrSafeSpec.CatSpec | src/strsafe.h:133-160 | the outcome of an append keeps the buffer's length and leaves it unchanged whenever the code is INVALID_PARAMETER; on a destination that is already full (first terminator at cap-1) the buffer stays as it was and the call succeeds exactly when the source is empty, the model's rule for the case tests/StringCbCatA-t.c exercises at lines 33-37 |
| StrSafe.AppendFrom | src/strsafe.h:245-249 | the shared copy loop writes the source from the cursor until its terminator or the last slot, then a terminator, giving exactly the AppendAt outcome |
| StrSafe.StringCchCopy | src/strsafe.h:245-285 | result code and new destination are exactly CopySpec of the old destination and the source's characters |
| StrSafe.StringCbCopy | src/strsafe.h:626-666 | as StringCchCopy with the byte capacity rounded down to whole units |
| StrSafe.StringCchCat | src/strsafe.h:133-176 | result code and new destination are exactly CatSpec of the old destination and the source's characters |
| StrSafe.StringCbCat | src/strsafe.h:514-557 | as StringCchCat with the byte capacity rounded down to whole units |
| StrSafeProps.RejectedCapacity | src/strsafe.h:261-264 | copy and append with capacity 0 or above STRSAFE_MAX_CCH return INVALID_PARAMETER and leave the destination unchanged |
| StrSafeProps.CopyFits | src/strsafe.h:245-261 | a source shorter than the capacity gives S_OK, the destination holds exactly the source's characters and a terminator, its length reads back as the source's length, and nothing after the terminator changes |
| StrSafeProps.CopyTruncates | src/strsafe.h:266-269 | a source that does not fit gives INSUFFICIENT_BUFFER, the first cap-1 source characters, a terminator at cap-1 and nothing changed from cap on |
| StrSafeProps.CatFits | src/strsafe.h:133-150 | when existing string plus source fit, S_OK and the destination holds old string ++ source ++ terminator (covers empty source and empty destination); nothing after the terminator changes |
| StrSafeProps.CatTruncates | src/strsafe.h:156-160 | when they do not fit, INSUFFICIENT_BUFFER, the old string preserved, the longest prefix of old ++ source that fits, a terminator at cap-1, nothing changed from cap on |
| StrSafeProps.CatRejectsUnterminated | src/strsafe.h:152-154 | no terminator within cap gives INVALID_PARAMETER with the destination unchanged |
| StrSafeProps.CatRejectsFull | tests/StringCbCatA-t.c:33-37 | a destination already holding cap-1 characters and a non-empty source give INVALID_PARAMETER with the destination unchanged |
| StrSafeProps.CopyStaysWithinCapacity | src/strsafe.h:245-269 | copy returns one of its three codes, INVALID_PARAMETER exactly for a rejected capacity (buffer unchanged), never writes at or beyond cap, and otherwise leaves a terminator within cap |
| StrSafeProps.CatStaysWithinCapacity | src/strsafe.h:133-160 | append returns one of its three codes, leaves the buffer unchanged on INVALID_PARAMETER, never writes at or beyond cap, and otherwise leaves a terminator within cap |
| StrSafeProps.CatOntoPlaced | src/strsafe.h:133-136 | appending y, with room to spare, to a buffer that holds x from index 0 succeeds and leaves x ++ y there, terminated |
| StrSafeProps.CopyCatCatIsCopy | src/strsafe.h:133-136 | with ample capacity, copying a then appending b then c gives S_OK at each step and the same buffer as copying a ++ b ++ c |
| StrSafeTests.CatThatFits | tests/StringCbCatA-t.c:10-25 | StringCbCatA of a source that fits returns a SUCCEEDED code and the destination holds the concatenation |
| StrSafeTests.CatThatTruncates | tests/StringCbCatA-t.c:27-31 | StringCbCatA of "longer string" onto "test" in 11 bytes returns INSUFFICIENT_BUFFER and leaves the first cap-1 characters of the concatenation |
| StrSafeTests.CatToFull | tests/StringCbCatA-t.c:33-37 | StringCbCatA onto a full destination returns INVALID_PARAMETER and leaves the destination unchanged |
| StrSafeTests.ShortConcatenations | tests/StringCbCatA-t.c:10-25 | the first three calls on dest[11] and empty[10] (after the reset of line 15) all return S_OK and leave "testTEST", "test" and "test" |
| StrSafeTests.LongConcatenations | tests/StringCbCatA-t.c:27-43 | on dest holding "test", the too-long source, the full destination and the zero capacity return INSUFFICIENT_BUFFER, INVALID_PARAMETER and INVALID_PARAMETER; dest holds "testlonger" after the first and is not modified by the other two |
| StrSafeTests.StringCbCatATest | tests/StringCbCatA-t.c:4-43 | the whole test on one mutated dest array: the six result codes in order are S_OK, S_OK, S_OK, INSUFFICIENT_BUFFER, INVALID_PARAMETER, INVALID_PARAMETER, and the destinations hold "testTEST", "test", "test", "testlonger", then "testlonger" unchanged twice |
| StrSafeTests.CopyThatFits | src/strsafe.h:245-261 | a copy that fits returns S_OK, and the length read back is the source's length |
| StrSafeTests.CopyThatTruncates | src/strsafe.h:266-269 | a copy that does not fit returns INSUFFICIENT_BUFFER and holds the first cap-1 characters |
| StrSafeTests.CopyScenarios | src/strsafe.h:245-269 | "abc" into six units of arbitrary contents gives S_OK and length 3; "abcd" into three units gives INSUFFICIENT_BUFFER and "ab"; a zero capacity gives INVALID_PARAMETER and writes nothing |
| StrSafeTests.LengthScenarios | src/strsafe.h:478-497 | for "abcde": a capacity of 3 finds no terminator and gives INVALID_PARAMETER; 6 narrow units give S_OK and 5; 12 bytes of 16-bit units give S_OK and 10 bytes |

## Left out

- Extended (`Ex`) forms: the header leaves their behaviour undocumented. Only the flag bit values are modelled, as constants.
- `CatN` and `CopyN` forms: the header gives no contract for their source bounds.
- `Printf` and `VPrintf` forms: they forward variadic arguments to the host formatter, which is foreign code.
- `Gets` forms: they read a line from an input stream, which is I/O.
- `UNICODE`, `TCHAR` and `TEXT` dispatch: this only picks names. The A and W forms share one model, and `sizeof(wchar_t)` is a parameter.
- Null pointers: sources and destinations are always present, as sequences and arrays.
- Overlap between source and destination: the source is a value, so the model cannot express aliasing.
- `size_t` arithmetic: capacities are unbounded naturals. Wrap-around of `size_t` is not modelled.
- StrSafeLength.StringCchLength: the model reports 0 as the length on failure, where the header leaves the value undefined.
