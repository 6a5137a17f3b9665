/** Small string helpers shared by the model: an Option type and the two
    ways the task searches strings (PHP's `strpos` with a one-character
    needle, and `strpos(...) === 0`, which is a prefix test). */
module Strings {

  datatype Option<T> = None | Some(value: T)

  /** `p` is a prefix of `s`: PHP's `strpos($s, $p) === 0` for a non-empty `p`. */
  predicate StartsWith(s: string, p: string) {
    |p| <= |s| && s[..|p|] == p
  }

  /** PHP's `strpos($s, $c, $from)` for a one-character needle: the first
      position at or after `from` holding `c`. An offset at or past the end
      finds nothing (PHP 7 answers `false` there). */
  function IndexOfFrom(s: string, c: char, from: nat): (r: Option<nat>)
    ensures r.Some? ==> from <= r.value < |s|
    decreases |s| - from
  {
    if from >= |s| then None
    else if s[from] == c then Some(from)
    else IndexOfFrom(s, c, from + 1)
  }

  /** What `IndexOfFrom` finds: the first `c` from `from` on, or proof that
      there is none. */
  lemma {:induction false} IndexOfFromFinds(s: string, c: char, from: nat)
    ensures var r := IndexOfFrom(s, c, from);
            && (r.Some? ==> s[r.value] == c && forall i :: from <= i < r.value ==> s[i] != c)
            && (r.None? ==> forall i :: from <= i < |s| ==> s[i] != c)
    decreases |s| - from
  {
    if from < |s| && s[from] != c {
      IndexOfFromFinds(s, c, from + 1);
    }
  }
}
