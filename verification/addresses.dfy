module Addresses {
  /** Matches [GC][A-Z0-9]{55}, a Stellar account or contract address. */
  predicate ValidAddress(a: string) {
    && |a| == 56 && a[0] in ['G', 'C']
    && forall i :: 1 <= i < 56 ==> 'A' <= a[i] <= 'Z' || '0' <= a[i] <= '9'
  }

  function AnAddress(): (a: string)
    ensures ValidAddress(a)
  {
    seq(56, _ => 'G')
  }

  /** A first character and n more. */
  function Filled(first: char, rest: char, n: nat): string {
    [first] + seq(n, _ => rest)
  }

  /** 55 capitals or digits after a G or a C, and nothing else. */
  lemma AddressFormat(first: char, rest: char, n: nat)
    ensures ValidAddress(Filled(first, rest, n)) <==>
      n == 55 && (first == 'G' || first == 'C') && ('A' <= rest <= 'Z' || '0' <= rest <= '9')
  {
    var a := Filled(first, rest, n);
    if n == 55 {
      assert a[1] == rest && forall i :: 1 <= i < 56 ==> a[i] == rest;
    }
  }

  /** Every character counts. */
  lemma EveryCharacterCounts(a: string, i: nat)
    requires 1 <= i < |a| && !('A' <= a[i] <= 'Z' || '0' <= a[i] <= '9')
    ensures !ValidAddress(a)
  {
  }
}
