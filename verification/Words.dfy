/** 64-bit unsigned arithmetic as Go does it. */
module Words {

  const TWO_64: nat := 0x1_0000_0000_0000_0000

  function Sub64(a: int, b: int): (r: nat)
    ensures r < TWO_64
  {
    (a - b) % TWO_64
  }

  function Mul64(a: nat, b: nat): (r: nat)
    ensures r < TWO_64
  {
    (a * b) % TWO_64
  }
}
