/** Options, results and the names every other module shares. */
module Names {

  datatype Option<+T> = None | Some(value: T)

  datatype Result<+T, +E> = Ok(value: T) | Err(error: E)

  function Min(a: int, b: int): int {
    if a <= b then a else b
  }

  function Max(a: int, b: int): int {
    if a >= b then a else b
  }

  /** The characters a DNS label may start or end with. */
  predicate IsLowerAlnum(c: char) {
    'a' <= c <= 'z' || '0' <= c <= '9'
  }

  /** Section 2.1 of RFC 1123, lower case only: `[a-z0-9]([-a-z0-9]*[a-z0-9])?`. */
  predicate IsDnsLabel(s: string, max: nat) {
    && 0 < |s| <= max
    && IsLowerAlnum(s[0])
    && IsLowerAlnum(s[|s| - 1])
    && forall i :: 0 <= i < |s| ==> IsLowerAlnum(s[i]) || s[i] == '-'
  }

  type VertexName = s: string | IsDnsLabel(s, 63) witness "a"
}
