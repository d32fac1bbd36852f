/**
 * Identifiers of members and items. The application writes member ids as
 * `mem-<millisecond clock>` and item ids as `item-<index>`; the model replaces the
 * clock with a counter, so both kinds are a prefix followed by a decimal number.
 * What matters is that distinct numbers give distinct ids.
 */
module Identifiers {

  /** The decimal digit character for `d`. */
  function DigitChar(d: nat): (c: char)
    requires d < 10
    ensures '0' <= c <= '9'
  {
    ('0' as int + d) as char
  }

  /** The decimal rendering of `n`, as JavaScript's template literals print a non-negative integer. */
  function NatToString(n: nat): (s: string)
    ensures |s| >= 1
    ensures |s| == 1 <==> n < 10
    ensures forall k :: 0 <= k < |s| ==> '0' <= s[k] <= '9'
    decreases n
  {
    if n < 10 then [DigitChar(n)] else NatToString(n / 10) + [DigitChar(n % 10)]
  }

  /** Different numbers have different decimal renderings. */
  lemma {:induction false} NatToStringInjective(a: nat, b: nat)
    requires NatToString(a) == NatToString(b)
    ensures a == b
    decreases a
  {
    var sa, sb := NatToString(a), NatToString(b);
    if a < 10 && b < 10 {
      assert sa[0] == DigitChar(a) && sb[0] == DigitChar(b);
    } else if a >= 10 && b >= 10 {
      assert sa[|sa| - 1] == DigitChar(a % 10);
      assert sb[|sb| - 1] == DigitChar(b % 10);
      assert sa[..|sa| - 1] == NatToString(a / 10);
      assert sb[..|sb| - 1] == NatToString(b / 10);
      NatToStringInjective(a / 10, b / 10);
    }
  }

  /** The id of the member created when the counter stood at `serial` (App.tsx:49). */
  function MemberIdOf(serial: nat): string
  {
    "mem-" + NatToString(serial)
  }

  /** The id of the extracted item at position `index` (App.tsx:34). */
  function ItemIdOf(index: nat): string
  {
    "item-" + NatToString(index)
  }

  /** Distinct counter values give distinct member ids. */
  lemma MemberIdInjective(a: nat, b: nat)
    ensures MemberIdOf(a) == MemberIdOf(b) <==> a == b
  {
    if MemberIdOf(a) == MemberIdOf(b) {
      assert MemberIdOf(a)[4..] == NatToString(a);
      assert MemberIdOf(b)[4..] == NatToString(b);
      NatToStringInjective(a, b);
    }
  }

  /** Distinct positions give distinct item ids. */
  lemma ItemIdInjective(a: nat, b: nat)
    ensures ItemIdOf(a) == ItemIdOf(b) <==> a == b
  {
    if ItemIdOf(a) == ItemIdOf(b) {
      assert ItemIdOf(a)[5..] == NatToString(a);
      assert ItemIdOf(b)[5..] == NatToString(b);
      NatToStringInjective(a, b);
    }
  }
}
