/**
 * The one piece of PHP string semantics the resolver depends on.
 */
module PhpString {

  /**
   * PHP's `empty()` applied to a string: true for the empty string and,
   * because "0" converts to false, also for the one-character string "0".
   */
  predicate IsEmpty(s: string) {
    s == "" || s == "0"
  }
}
