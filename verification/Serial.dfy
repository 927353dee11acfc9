/** 32-bit serial numbers (RFC 1982), as iSCSI uses them for CmdSN, StatSN, DataSN and R2TSN. */
module Serial {

  const MODULUS := 0x1_0000_0000
  const HALF := 0x8000_0000

  type u32 = x: int | 0 <= x < MODULUS

  /** The difference b - a of two serial numbers, as a uint32_t. */
  function Ahead(a: u32, b: u32): u32
  {
    if a <= b then b - a else b - a + MODULUS
  }

  function Next(a: u32): u32
  {
    if a == MODULUS - 1 then 0 else a + 1
  }

  /** before(): the 32-bit difference a - b is negative as an int32_t. */
  predicate Before(a: u32, b: u32)
  {
    Ahead(b, a) >= HALF
  }

  function Plus(base: u32, k: nat): u32
  {
    if k == 0 then base else Next(Plus(base, k - 1))
  }

  /** Inside a window of 2^31, before() is the order of the distances from its start, across wrap-around too. */
  lemma BeforeInWindow(e: u32, a: u32, b: u32)
    requires Ahead(e, a) < HALF && Ahead(e, b) < HALF
    ensures Before(a, b) <==> Ahead(e, a) < Ahead(e, b)
  {
  }

  lemma AheadOfNext(e: u32, a: u32)
    requires a != e
    ensures Ahead(Next(e), a) == Ahead(e, a) - 1
  {
  }

  lemma {:induction false} PlusAhead(base: u32, k: nat, x: u32)
    requires k <= Ahead(base, x)
    ensures Ahead(Plus(base, k), x) == Ahead(base, x) - k
  {
    if k > 0 {
      PlusAhead(base, k - 1, x);
      AheadOfNext(Plus(base, k - 1), x);
    }
  }

  lemma PlusDistinct(base: u32, x: u32)
    ensures Plus(base, Ahead(base, x)) == x
  {
    PlusAhead(base, Ahead(base, x), x);
  }

  lemma {:induction false} AheadPlus(base: u32, k: nat)
    requires k < MODULUS
    ensures Ahead(base, Plus(base, k)) == k
  {
    if k > 0 {
      AheadPlus(base, k - 1);
    }
  }

  lemma {:induction false} PlusNext(sn: u32, k: nat)
    ensures Plus(Next(sn), k) == Plus(sn, k + 1)
  {
    if k > 0 {
      PlusNext(sn, k - 1);
    }
  }

  /** Plus is addition modulo 2^32. */
  lemma {:induction false} PlusIs(base: u32, k: nat)
    requires k < MODULUS
    ensures Plus(base, k) == if base + k < MODULUS then base + k else base + k - MODULUS
  {
    if k > 0 {
      PlusIs(base, k - 1);
    }
  }
}
