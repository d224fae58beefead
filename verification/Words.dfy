/** Unsigned 64-bit words. */
module Words {
  const TWO64: nat := 0x1_0000_0000_0000_0000
  const MAX64: nat := TWO64 - 1

  function Wrap(x: nat): nat {
    x % TWO64
  }

  function Xor(a: nat, b: nat): nat
    decreases a + b
  {
    if a == 0 then b else if b == 0 then a
    else (a % 2 + b % 2) % 2 + 2 * Xor(a / 2, b / 2)
  }

  function And(a: nat, b: nat): nat
    decreases a
  {
    if a == 0 || b == 0 then 0 else (if a % 2 == 1 then b % 2 else 0) + 2 * And(a / 2, b / 2)
  }

  lemma {:induction false} AndBelow(a: nat, b: nat)
    ensures And(a, b) <= b
    decreases a
  {
    if a != 0 && b != 0 {
      AndBelow(a / 2, b / 2);
    }
  }

  lemma XorHalf(a: nat, b: nat)
    ensures Xor(a, b) / 2 == Xor(a / 2, b / 2) && Xor(a, b) % 2 == (a % 2 + b % 2) % 2
  {
    assert Xor(0, a / 2) == Xor(a / 2, 0) == a / 2;
    BitAndRest((a % 2 + b % 2) % 2, Xor(a / 2, b / 2));
  }

  lemma AndHalf(a: nat, b: nat)
    ensures And(a, b) / 2 == And(a / 2, b / 2) && And(a, b) % 2 == if a % 2 == 1 then b % 2 else 0
  {
    assert And(0, b / 2) == And(a / 2, 0) == 0;
    BitAndRest(if a % 2 == 1 then b % 2 else 0, And(a / 2, b / 2));
  }

  lemma BitAndRest(low: nat, rest: nat)
    requires low < 2
    ensures (low + 2 * rest) / 2 == rest && (low + 2 * rest) % 2 == low
  {
  }
}
