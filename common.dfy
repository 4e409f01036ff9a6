/** Helpers shared by every module: an optional value and the few PHP string
    conventions the backend relies on (truthiness of strings, prefix tests). */
module Common {

  /** A nullable value: PHP's `null` is `None`. */
  datatype Option<+T> = None | Some(value: T)

  /** PHP truthiness of a nullable string: `null`, `""` and `"0"` are the only
      falsy strings, so `if (!$s)` takes exactly these three. */
  predicate Falsy(s: Option<string>) {
    s.None? || s.value == "" || s.value == "0"
  }

  /** Symfony's NotBlank on a nullable string: `null` and `""` are blank. */
  predicate NotBlank(s: Option<string>) {
    s.Some? && s.value != ""
  }

  /** `str_starts_with($s, $prefix)`: case-sensitive, byte for byte. */
  predicate StartsWith(s: string, prefix: string) {
    |prefix| <= |s| && s[..|prefix|] == prefix
  }

  /** Whether `c` occurs in `s` (`str_contains` for a one-character needle). */
  predicate Contains(s: string, c: char) {
    exists i | 0 <= i < |s| :: s[i] == c
  }

  /** The index of the first occurrence of `c` in `s`. */
  function IndexOf(s: string, c: char): (i: nat)
    requires Contains(s, c)
    ensures i < |s| && s[i] == c
    ensures forall j | 0 <= j < i :: s[j] != c
  {
    if s[0] == c then 0
    else
      assert Contains(s[1..], c) by {
        var k :| 0 <= k < |s| && s[k] == c;
        assert s[1..][k - 1] == c;
      }
      1 + IndexOf(s[1..], c)
  }
}
