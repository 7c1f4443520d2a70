/** Small shared types: optional values, library results, C string arguments and sequence helpers. */
module Basics {

  datatype Option<+T> = None | Some(value: T)

  /** What a call into the LanceDB library returned. */
  datatype Result<+T, +E> = Ok(value: T) | Err(error: E)

  const NUL: char := '\0'

  /** A Rust string may hold NUL bytes; only a NUL-free one becomes a C string (`CString::new`). */
  predicate NulFree(s: string) {
    NUL !in s
  }

  /** The text of a C string: it ends at its terminator, so it never holds a NUL. */
  type CText = s: string | NulFree(s) witness ""

  /** A `const char*` argument: NULL, bytes that are not UTF-8, or readable text. */
  datatype CArg = NullArg | BadUtf8 | Text(text: CText)

  const I64_MIN: int := -0x8000_0000_0000_0000
  const I64_MAX: int := 0x7FFF_FFFF_FFFF_FFFF
  const USIZE_MAX: int := 0xFFFF_FFFF_FFFF_FFFF

  newtype i64 = x: int | I64_MIN <= x <= I64_MAX

  function Sum(ns: seq<nat>): nat {
    if ns == [] then 0 else Sum(ns[..|ns| - 1]) + ns[|ns| - 1]
  }

  lemma SumPrefix(ns: seq<nat>, n: nat)
    requires n < |ns|
    ensures Sum(ns[..n + 1]) == Sum(ns[..n]) + ns[n]
  {
    assert ns[..n + 1][..n] == ns[..n];
  }

  lemma {:induction false} SumPrefixAtMost(ns: seq<nat>, n: nat)
    requires n <= |ns|
    ensures Sum(ns[..n]) <= Sum(ns)
    decreases |ns| - n
  {
    if n == |ns| {
      assert ns[..n] == ns;
    } else {
      SumPrefix(ns, n);
      SumPrefixAtMost(ns, n + 1);
    }
  }
}
