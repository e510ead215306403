/** Decimal printing, plain and zero-padded, and its injectivity. */
module Decimal {

  function Digit(d: nat): char
    requires d < 10
  {
    '0' + d as char
  }

  /** `str(n)`. */
  function Print(n: nat): (s: string)
    ensures s != []
  {
    if n < 10 then [Digit(n)] else Print(n / 10) + [Digit(n % 10)]
  }

  /** `f"{n:04d}"`. */
  function Padded(n: nat): string {
    var s := Print(n);
    if |s| >= 4 then s else seq(4 - |s|, i => '0') + s
  }

  /** The number a string of digits denotes. */
  function Value(s: string): int {
    if s == [] then 0 else 10 * Value(s[..|s| - 1]) + (s[|s| - 1] as int - '0' as int)
  }

  lemma {:induction false} PrintValue(n: nat)
    ensures Value(Print(n)) == n
  {
    if n < 10 {
      assert Print(n)[..0] == [];
    } else {
      PrintValue(n / 10);
      var s := Print(n);
      assert s[..|s| - 1] == Print(n / 10);
    }
  }

  /** Decimal digits, and no leading zero but in zero itself. */
  lemma {:induction false} PrintShape(n: nat)
    ensures forall k :: 0 <= k < |Print(n)| ==> '0' <= Print(n)[k] <= '9'
    ensures Print(n)[0] == '0' <==> n == 0
  {
    if n < 10 {
    } else {
      PrintShape(n / 10);
    }
  }

  lemma {:induction false} ZerosValue(k: nat, s: string)
    ensures Value(seq(k, i => '0') + s) == Value(s)
  {
    var z := seq(k, i => '0');
    if s == [] {
      if k > 0 {
        assert (z + s)[..k - 1] == seq(k - 1, i => '0') + s;
        ZerosValue(k - 1, s);
      } else {
        assert z + s == [];
      }
    } else {
      assert (z + s)[..|z + s| - 1] == z + s[..|s| - 1];
      ZerosValue(k, s[..|s| - 1]);
    }
  }

  lemma PrintInjective(m: nat, n: nat)
    requires Print(m) == Print(n)
    ensures m == n
  {
    PrintValue(m);
    PrintValue(n);
  }

  lemma PaddedValue(n: nat)
    ensures Value(Padded(n)) == n
  {
    PrintValue(n);
    if |Print(n)| < 4 {
      ZerosValue(4 - |Print(n)|, Print(n));
    }
  }

  lemma PaddedInjective(m: nat, n: nat)
    requires Padded(m) == Padded(n)
    ensures m == n
  {
    PaddedValue(m);
    PaddedValue(n);
  }
}
