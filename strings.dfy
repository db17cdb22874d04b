/** The two string operations the executor relies on: Go's `strings.Contains` and the
    decimal rendering of a count inside a driver message. */
module Strings {

  /** `p` occurs in `s` starting at index `i`. */
  predicate OccursAt(s: string, p: string, i: int) {
    0 <= i && i + |p| <= |s| && s[i..i + |p|] == p
  }

  /** Shifting the start of the search by one character keeps the occurrences
      that do not start at index 0. */
  lemma OccursInTail(s: string, p: string)
    requires s != [] && !(p <= s)
    ensures (exists i :: OccursAt(s, p, i)) <==> (exists i :: OccursAt(s[1..], p, i))
  {
    forall i | OccursAt(s[1..], p, i) ensures OccursAt(s, p, i + 1) {
      assert s[1..][i..i + |p|] == s[i + 1..i + 1 + |p|];
    }
    forall i | OccursAt(s, p, i) ensures i >= 1 && OccursAt(s[1..], p, i - 1) {
      assert s[1..][i - 1..i - 1 + |p|] == s[i..i + |p|];
    }
  }

  /** Go's `strings.Contains(s, p)`: whether `p` is a substring of `s`. */
  function Contains(s: string, p: string): (b: bool)
    ensures b <==> exists i :: OccursAt(s, p, i)
  {
    if p <= s then
      assert OccursAt(s, p, 0);
      true
    else if s == [] then
      false
    else
      OccursInTail(s, p);
      Contains(s[1..], p)
  }

  /** A string in which the character `c` does not appear contains nothing that starts with `c`. */
  lemma AbsentFirstCharacter(s: string, p: string)
    requires p != [] && p[0] !in s
    ensures !Contains(s, p)
  {
  }

  /** Go's `%d` rendering of a natural number. */
  function Decimal(n: nat): string {
    if n < 10 then ["0123456789"[n]]
    else Decimal(n / 10) + ["0123456789"[n % 10]]
  }

  /** The rendering consists of decimal digits only. */
  lemma {:induction false} DecimalDigits(n: nat)
    ensures forall k :: 0 <= k < |Decimal(n)| ==> '0' <= Decimal(n)[k] <= '9'
  {
    if n >= 10 {
      DecimalDigits(n / 10);
    }
  }
}
