/**
 * The few pieces of Python value semantics that the two scripts rely on:
 * an optional argument (`None` or a `str`), the truthiness of such an
 * argument, and the substring test `needle in haystack` on strings.
 */
module Py {

  /** A Python value that is either `None` or a value of type T. */
  datatype Option<+T> = None | Some(value: T) {

    /** `d.get(name, default)`: the value if present, otherwise the default. */
    function GetOr(default: T): T {
      match this
      case Some(v) => v
      case None => default
    }
  }

  /** Truthiness of an optional `str`: `None` and `""` are both false. */
  predicate Truthy(s: Option<string>) {
    s.Some? && s.value != ""
  }

  /** `needle` occurs in `haystack` starting at position `i`. */
  ghost predicate OccursAt(haystack: string, needle: string, i: nat) {
    i + |needle| <= |haystack| && haystack[i..i + |needle|] == needle
  }

  /**
   * Python's `needle in haystack` for two strings, computed as a left-to-right
   * scan: the needle is a prefix here, or it occurs in the rest.
   */
  predicate Contains(haystack: string, needle: string)
    // the empty string is in every string, and no string holds a longer one
    ensures needle == [] ==> Contains(haystack, needle)
    ensures Contains(haystack, needle) ==> |needle| <= |haystack|
    decreases |haystack|
  {
    (|needle| <= |haystack| && haystack[..|needle|] == needle)
    || (|haystack| > 0 && Contains(haystack[1..], needle))
  }

  /** The scan agrees with the definition of a substring: some position holds the needle. */
  lemma {:induction false} ContainsIff(haystack: string, needle: string)
    ensures Contains(haystack, needle) <==> exists i: nat :: OccursAt(haystack, needle, i)
    decreases |haystack|
  {
    if Contains(haystack, needle) {
      if |needle| <= |haystack| && haystack[..|needle|] == needle {
        assert OccursAt(haystack, needle, 0);
      } else {
        ContainsIff(haystack[1..], needle);
        var j: nat :| OccursAt(haystack[1..], needle, j);
        assert haystack[1..][j..j + |needle|] == haystack[j + 1..j + 1 + |needle|];
        assert OccursAt(haystack, needle, j + 1);
      }
    }
    if exists i: nat :: OccursAt(haystack, needle, i) {
      var i: nat :| OccursAt(haystack, needle, i);
      if i == 0 {
        assert haystack[..|needle|] == needle;
      } else {
        assert haystack[1..][i - 1..i - 1 + |needle|] == haystack[i..i + |needle|];
        assert OccursAt(haystack[1..], needle, i - 1);
        ContainsIff(haystack[1..], needle);
      }
    }
  }

  /** Every string is found inside any string built around it. */
  lemma {:induction false} ContainsInfix(prefix: string, needle: string, suffix: string)
    ensures Contains(prefix + needle + suffix, needle)
  {
    var h := prefix + needle + suffix;
    assert h[|prefix|..|prefix| + |needle|] == needle;
    assert OccursAt(h, needle, |prefix|);
    ContainsIff(h, needle);
  }
}
