/** StringCchLength and StringCbLength: a bounded, read-only scan for the
    terminator, reported as an HRESULT together with the length it found. */
module StrSafeLength {
  import opened StrSafeBase
  import opened StrSafeStrings

  /** The HRESULT of a length query and the value written through pcch (or
      pcb). The header leaves that value undefined on failure; the model
      then reports 0. */
  datatype Counted = Counted(hr: HResult, count: nat)

  /** What the caller of a length query guarantees: the units the scan
      reads are readable. The scan reads nothing when cchMax is above the
      ceiling, and otherwise stops at the first terminator or at cchMax. */
  predicate ScanInBounds(psz: seq<CodeUnit>, cchMax: nat) {
    cchMax > STRSAFE_MAX_CCH || cchMax <= |psz| || IsCString(psz)
  }

  function Min(a: nat, b: nat): nat {
    if a <= b then a else b
  }

  /** StringCchLength(psz, cchMax, pcch). Succeeds exactly when cchMax is
      within the ceiling and a terminator lies among the first cchMax
      units; the length is then the index of the first terminator, which
      is not counted and so is below cchMax. */
  function StringCchLength(psz: seq<CodeUnit>, cchMax: nat): (r: Counted)
    requires ScanInBounds(psz, cchMax)
    ensures r.hr == S_OK || r.hr == STRSAFE_E_INVALID_PARAMETER
    ensures r.hr == S_OK <==>
              cchMax <= STRSAFE_MAX_CCH &&
              exists j :: 0 <= j < cchMax && j < |psz| && psz[j] == 0
    ensures r.hr == S_OK ==> r.count < cchMax && r.count < |psz| && psz[r.count] == 0
    ensures r.hr == S_OK ==> forall j :: 0 <= j < r.count ==> psz[j] != 0
  {
    if cchMax > STRSAFE_MAX_CCH then
      Counted(STRSAFE_E_INVALID_PARAMETER, 0)
    else
      match FindZero(psz, 0, Min(cchMax, |psz|))
      case None => Counted(STRSAFE_E_INVALID_PARAMETER, 0)
      case Some(n) => Counted(S_OK, n)
  }

  /** The length query reports the first terminator whenever there is one
      within cchMax. */
  lemma LengthIsFirstZero(psz: seq<CodeUnit>, cchMax: nat, n: nat)
    requires cchMax <= STRSAFE_MAX_CCH && cchMax <= |psz|
    requires n < cchMax && psz[n] == 0
    requires forall j :: 0 <= j < n ==> psz[j] != 0
    ensures StringCchLength(psz, cchMax) == Counted(S_OK, n)
  {
    FindZeroIsFirst(psz, 0, cchMax, n);
  }

  /** (k + 1) whole units of size b fit in c bytes when k + 1 <= c / b. */
  lemma WholeUnitsFit(k: nat, b: nat, c: nat)
    requires b > 0 && k + 1 <= c / b
    ensures k * b + b <= c
  {
    assert (k + 1) * b <= (c / b) * b;
    assert (c / b) * b <= c;
  }

  /** StringCbLength(psz, cbMax, pcb) for code units of unitSize bytes (1
      for the A form, sizeof(wchar_t) for the W form): cbMax is turned
      into whole units, the scan runs as in StringCchLength, and the
      length is reported in bytes. On success that length is the number
      of units in front of the first terminator times the unit size, and
      leaves room for the terminator within cbMax. */
  function StringCbLength(psz: seq<CodeUnit>, cbMax: nat, unitSize: nat): (r: Counted)
    requires unitSize > 0
    requires ScanInBounds(psz, cbMax / unitSize)
    ensures r.hr == StringCchLength(psz, cbMax / unitSize).hr
    ensures r.hr == S_OK ==>
              var n := StringCchLength(psz, cbMax / unitSize).count;
              r.count == n * unitSize && r.count + unitSize <= cbMax &&
              psz[n] == 0 && forall j :: 0 <= j < n ==> psz[j] != 0
  {
    var units := StringCchLength(psz, cbMax / unitSize);
    if units.hr == S_OK then
      WholeUnitsFit(units.count, unitSize, cbMax);
      Counted(S_OK, units.count * unitSize)
    else
      units
  }
}
