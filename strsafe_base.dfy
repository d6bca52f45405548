/** The vocabulary shared by every libstrsafe operation: result codes,
    the SUCCEEDED/FAILED tests, the flag bits of the extended forms, the
    capacity ceiling and the code unit that strings are made of. */
module StrSafeBase {

  /** An HRESULT is an unsigned 32-bit word; each set bit names an error. */
  type HResult = bv32

  const S_OK: HResult := 0x0000_0000
  const STRSAFE_E_END_OF_FILE: HResult := 0x0000_0001
  const STRSAFE_E_INVALID_PARAMETER: HResult := 0x0000_0002
  const STRSAFE_E_INSUFFICIENT_BUFFER: HResult := 0x0000_0004

  /** The flag word taken by the extended ("Ex") forms. */
  type Flags = bv32

  const STRSAFE_IGNORE_NULLS: Flags := 0x0000_0100
  const STRSAFE_FILL_BEHIND_NULL: Flags := 0x0000_0200
  const STRSAFE_FILL_ON_FAILURE: Flags := 0x0000_0400
  const STRSAFE_NULL_ON_FAILURE: Flags := 0x0000_0800
  const STRSAFE_NO_TRUNCATION: Flags := 0x0000_1000

  /** The largest capacity, in characters, that any operation accepts. */
  const STRSAFE_MAX_CCH: nat := 0x7fff_ffff

  /** SUCCEEDED(result): the call reported no error. */
  predicate Succeeded(hr: HResult) {
    hr == S_OK
  }

  /** FAILED(result): the call reported some error. */
  predicate Failed(hr: HResult) {
    hr != S_OK
  }

  /** A code unit: a char for the narrow (A) forms, a wchar_t for the wide
      (W) forms. Both widths fit in 32 bits. */
  newtype CodeUnit = x: int | 0 <= x < 0x1_0000_0000

  datatype Option<T> = None | Some(value: T)

  /** A capacity that an operation accepts: not zero and not above the
      ceiling. */
  predicate ValidCapacity(cch: nat) {
    0 < cch <= STRSAFE_MAX_CCH
  }

  predicate IsSingleBit(w: bv32) {
    w != 0 && w & (w - 1) == 0
  }

  /** SUCCEEDED holds of exactly S_OK, and FAILED is its negation. */
  lemma SucceededFailedComplement(hr: HResult)
    ensures Succeeded(hr) <==> hr == S_OK
    ensures Failed(hr) <==> !Succeeded(hr)
  {
  }

  /** The three error codes are distinct single bits; none of them is S_OK,
      so FAILED holds of each. */
  lemma ErrorCodesAreDistinctBits()
    ensures IsSingleBit(STRSAFE_E_END_OF_FILE)
    ensures IsSingleBit(STRSAFE_E_INVALID_PARAMETER)
    ensures IsSingleBit(STRSAFE_E_INSUFFICIENT_BUFFER)
    ensures STRSAFE_E_END_OF_FILE & STRSAFE_E_INVALID_PARAMETER == 0
    ensures STRSAFE_E_END_OF_FILE & STRSAFE_E_INSUFFICIENT_BUFFER == 0
    ensures STRSAFE_E_INVALID_PARAMETER & STRSAFE_E_INSUFFICIENT_BUFFER == 0
    ensures Failed(STRSAFE_E_END_OF_FILE) && Failed(STRSAFE_E_INVALID_PARAMETER)
    ensures Failed(STRSAFE_E_INSUFFICIENT_BUFFER) && Succeeded(S_OK)
  {
  }

  /** The five flags are single bits, pairwise disjoint, and clear of the
      low byte of the flag word (where a fill byte would travel) and of the
      error bits. */
  lemma FlagsAreDistinctBits()
    ensures IsSingleBit(STRSAFE_IGNORE_NULLS) && IsSingleBit(STRSAFE_FILL_BEHIND_NULL)
    ensures IsSingleBit(STRSAFE_FILL_ON_FAILURE) && IsSingleBit(STRSAFE_NULL_ON_FAILURE)
    ensures IsSingleBit(STRSAFE_NO_TRUNCATION)
    ensures (STRSAFE_IGNORE_NULLS | STRSAFE_FILL_BEHIND_NULL | STRSAFE_FILL_ON_FAILURE
             | STRSAFE_NULL_ON_FAILURE | STRSAFE_NO_TRUNCATION) == 0x1f00
    ensures (STRSAFE_IGNORE_NULLS | STRSAFE_FILL_BEHIND_NULL | STRSAFE_FILL_ON_FAILURE
             | STRSAFE_NULL_ON_FAILURE | STRSAFE_NO_TRUNCATION) & 0xff == 0
  {
  }
}
