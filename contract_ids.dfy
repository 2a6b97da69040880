/**
 * The Soroban contract-ID validator: trim surrounding whitespace, upper-case,
 * then accept only `C` followed by 55 characters from A-Z and 0-9. Characters
 * are treated as ASCII: `trim` removes the ASCII whitespace and line
 * terminators, `toUpperCase` maps a-z to A-Z and leaves everything else.
 */
module ContractIds {
  import opened Common

  const IdLength: nat := 56

  predicate IsSpace(c: char) {
    c == ' ' || c == '\t' || c == '\n' || c == '\r' || c == '\U{B}' || c == '\U{C}'
  }

  predicate IsUpperOrDigit(c: char) {
    ('A' <= c <= 'Z') || ('0' <= c <= '9')
  }

  /** `^C[A-Z0-9]{55}$` */
  predicate IsContractId(s: string) {
    |s| == IdLength && s[0] == 'C' && forall i :: 1 <= i < |s| ==> IsUpperOrDigit(s[i])
  }

  /** The first index at or after `i` that does not hold whitespace, or `|s|`. */
  function SkipSpace(s: string, i: nat): (j: nat)
    requires i <= |s|
    ensures i <= j <= |s|
    ensures forall k :: i <= k < j ==> IsSpace(s[k])
    ensures j < |s| ==> !IsSpace(s[j])
    decreases |s| - i
  {
    if i < |s| && IsSpace(s[i]) then SkipSpace(s, i + 1) else i
  }

  /** Scanning back from `hi` to no lower than `lo`: where the trailing whitespace starts. */
  function SkipSpaceBack(s: string, lo: nat, hi: nat): (j: nat)
    requires lo <= hi <= |s|
    ensures lo <= j <= hi
    ensures forall k :: j <= k < hi ==> IsSpace(s[k])
    ensures lo < j ==> !IsSpace(s[j - 1])
    decreases hi
  {
    if lo < hi && IsSpace(s[hi - 1]) then SkipSpaceBack(s, lo, hi - 1) else hi
  }

  /** The number of whitespace characters `s` starts with. */
  function LeadingSpaces(s: string): (n: nat)
    ensures n <= |s|
  {
    SkipSpace(s, 0)
  }

  /** `String.prototype.trim`: the input without its leading and trailing whitespace. */
  function Trim(s: string): (r: string)
    ensures r == [] || (!IsSpace(r[0]) && !IsSpace(r[|r| - 1]))
  {
    var start := LeadingSpaces(s);
    s[start..SkipSpaceBack(s, start, |s|)]
  }

  /**
   * Trimming keeps a contiguous slice of the input, starting after the
   * leading whitespace, and everything outside that slice is whitespace.
   */
  lemma TrimSlice(s: string)
    ensures LeadingSpaces(s) + |Trim(s)| <= |s|
    ensures forall i :: 0 <= i < LeadingSpaces(s) ==> IsSpace(s[i])
    ensures Trim(s) == s[LeadingSpaces(s)..LeadingSpaces(s) + |Trim(s)|]
    ensures forall i :: LeadingSpaces(s) + |Trim(s)| <= i < |s| ==> IsSpace(s[i])
  {
    var start := LeadingSpaces(s);
    assert Trim(s) == s[start..SkipSpaceBack(s, start, |s|)];
  }

  function UpperChar(c: char): (u: char)
    ensures 'a' <= c <= 'z' ==> 'A' <= u <= 'Z'
    ensures !('a' <= c <= 'z') ==> u == c
  {
    if 'a' <= c <= 'z' then (c as int - 'a' as int + 'A' as int) as char else c
  }

  /** `String.prototype.toUpperCase` on ASCII: same length, no lower-case letter left. */
  function ToUpper(s: string): (r: string)
    ensures |r| == |s|
    ensures forall i :: 0 <= i < |s| ==> r[i] == UpperChar(s[i])
  {
    seq(|s|, i requires 0 <= i < |s| => UpperChar(s[i]))
  }

  /** The form the validator checks and returns. */
  function Normalize(s: string): string {
    ToUpper(Trim(s))
  }

  /**
   * `validateAndSanitizeContractId`: the normalised input when it has the
   * contract-ID shape, otherwise a BAD_REQUEST error.
   */
  function ValidateAndSanitize(s: string): (r: Result<string>)
    ensures r.Ok? <==> IsContractId(Normalize(s))
    ensures r.Ok? ==> r.value == Normalize(s)
    ensures r.Err? ==> r.status == BadRequest
  {
    var normalized := ToUpper(Trim(s));
    if IsContractId(normalized) then Ok(normalized) else Err(BadRequest)
  }

  lemma TrimNoSpace(s: string)
    requires s != [] ==> !IsSpace(s[0]) && !IsSpace(s[|s| - 1])
    ensures Trim(s) == s
  {
  }

  /** A well-formed contract ID is its own normal form. */
  lemma NormalizeFixesContractId(s: string)
    requires IsContractId(s)
    ensures Normalize(s) == s
  {
    assert !IsSpace(s[0]) && !IsSpace(s[|s| - 1]) by {
      assert IsUpperOrDigit(s[|s| - 1]);
    }
    TrimNoSpace(s);
    assert ToUpper(s) == s;
  }

  /** Validating an accepted ID again returns it unchanged. */
  lemma ValidateIdempotent(s: string)
    requires ValidateAndSanitize(s).Ok?
    ensures ValidateAndSanitize(ValidateAndSanitize(s).value) == ValidateAndSanitize(s)
  {
    NormalizeFixesContractId(ValidateAndSanitize(s).value);
  }

  /** Case and surrounding whitespace do not matter: equal normal forms, equal verdicts. */
  lemma ValidateDependsOnNormalForm(s: string, t: string)
    requires Normalize(s) == Normalize(t)
    ensures ValidateAndSanitize(s) == ValidateAndSanitize(t)
  {
  }

  /** An upper-case ID wrapped in blanks and written in lower case is still accepted. */
  lemma AcceptsPaddedLowerCase(id: string, pad: string, lower: string)
    requires IsContractId(id)
    requires forall i :: 0 <= i < |pad| ==> IsSpace(pad[i])
    requires |lower| == |id| && forall i :: 0 <= i < |id| ==> UpperChar(lower[i]) == id[i]
    ensures ValidateAndSanitize(pad + lower + pad) == Ok(id)
  {
    assert !IsSpace(lower[0]) && !IsSpace(lower[|lower| - 1]) by {
      assert UpperChar(lower[0]) == id[0];
      assert UpperChar(lower[|lower| - 1]) == id[|id| - 1] && IsUpperOrDigit(id[|id| - 1]);
    }
    TrimPadded(pad, lower);
    assert ToUpper(lower) == id;
  }

  lemma TrimPadded(pad: string, core: string)
    requires forall i :: 0 <= i < |pad| ==> IsSpace(pad[i])
    requires core != [] && !IsSpace(core[0]) && !IsSpace(core[|core| - 1])
    ensures Trim(pad + core + pad) == core
  {
    var s := pad + core + pad;
    var n := |pad| + |core|;
    assert !IsSpace(s[|pad|]) && !IsSpace(s[n - 1]);
    assert forall i :: 0 <= i < |pad| ==> IsSpace(s[i]);
    assert forall i :: n <= i < |s| ==> IsSpace(s[i]) by {
      forall i | n <= i < |s| ensures IsSpace(s[i]) {
        assert s[i] == pad[i - n];
      }
    }
    var start := LeadingSpaces(s);
    assert start == |pad|;
    var end := SkipSpaceBack(s, start, |s|);
    assert end == n;
    assert s[start..end] == core;
  }
}
