/** Machine words as the C code uses them: 64-bit values that wrap, congruence modulo 2^64,
    powers of two, and the fact that masking with `size - 1` is reduction modulo `size`. */
module Words {

  const TWO64: int := 0x1_0000_0000_0000_0000
  const TWO32: int := 0x1_0000_0000

  type u64 = x: int | 0 <= x < TWO64
  type u32 = x: int | 0 <= x < TWO32
  type u16 = x: int | 0 <= x < 0x1_0000
  type byte = x: int | 0 <= x < 0x100

  datatype Option<+T> = None | Some(value: T)

  /** No element occurs twice. */
  ghost predicate Distinct<T>(s: seq<T>) {
    forall i, j :: 0 <= i < j < |s| ==> s[i] != s[j]
  }

  lemma SomeMember<T>(s: set<T>) returns (x: T)
    requires s != {}
    ensures x in s
  {
    x :| x in s;
  }

  function Wrap64(x: int): u64 { x % TWO64 }
  function Add64(a: u64, b: u64): u64 { Wrap64(a + b) }
  function Sub64(a: u64, b: u64): u64 { Wrap64(a - b) }

  function Turns(q: int): int { q * TWO64 }

  /** `a` and `b` are the same 64-bit word. */
  ghost predicate Cong(a: int, b: int) { exists q :: a == b + Turns(q) }

  lemma CongRefl(a: int)
    ensures Cong(a, a)
  {
    assert a == a + Turns(0);
  }

  lemma CongTrans(a: int, b: int, c: int)
    requires Cong(a, b) && Cong(b, c)
    ensures Cong(a, c)
  {
    var p :| a == b + Turns(p);
    var q :| b == c + Turns(q);
    assert a == c + Turns(p + q);
  }

  lemma CongSum(a: int, b: int, c: int, d: int)
    requires Cong(a, b) && Cong(c, d)
    ensures Cong(a + c, b + d)
  {
    var p :| a == b + Turns(p);
    var q :| c == d + Turns(q);
    assert a + c == b + d + Turns(p + q);
  }

  lemma CongWrap(a: int)
    ensures Cong(Wrap64(a), a)
  {
    assert Wrap64(a) == a + Turns(-(a / TWO64));
  }

  /** Words are congruent exactly when they wrap to the same value. */
  lemma CongIsSameWord(a: int, b: int)
    ensures Cong(a, b) <==> Wrap64(a) == Wrap64(b)
  {
    if Cong(a, b) {
      var q :| a == b + Turns(q);
      RemainderUnique(a, TWO64, b / TWO64 + q, b % TWO64);
    }
    if Wrap64(a) == Wrap64(b) {
      assert a == b + Turns(a / TWO64 - b / TWO64);
    }
  }

  function Pow2(k: nat): (r: nat)
    ensures r > 0
  {
    if k == 0 then 1 else 2 * Pow2(k - 1)
  }

  lemma {:induction false} Pow2Add(a: nat, b: nat)
    ensures Pow2(a + b) == Pow2(a) * Pow2(b)
  {
    if a > 0 {
      Pow2Add(a - 1, b);
      assert Pow2(a) * Pow2(b) == 2 * (Pow2(a - 1) * Pow2(b));
    }
  }

  lemma {:induction false} Pow2Monotone(a: nat, b: nat)
    requires a <= b
    ensures Pow2(a) <= Pow2(b)
    decreases b
  {
    if a < b { Pow2Monotone(a, b - 1); }
  }

  lemma Pow2Known()
    ensures Pow2(32) == TWO32 && Pow2(64) == TWO64
  {
    assert Pow2(8) == 256;
    Pow2Add(8, 8);
    Pow2Add(16, 16);
    Pow2Add(32, 32);
  }

  /** C's `&` on non-negative integers, bit by bit. */
  function BitAnd(a: nat, b: nat): nat {
    if a == 0 || b == 0 then 0
    else (a % 2) * (b % 2) + 2 * BitAnd(a / 2, b / 2)
  }

  /** Masking with 2^k - 1 keeps exactly the remainder modulo 2^k. */
  lemma {:induction false} MaskIsRemainder(x: nat, k: nat)
    ensures BitAnd(x, Pow2(k) - 1) == x % Pow2(k)
  {
    if k == 0 {
      RemainderUnique(x, 1, x, 0);
    } else if x == 0 {
      RemainderUnique(0, Pow2(k), 0, 0);
    } else {
      MaskIsRemainder(x / 2, k - 1);
      MaskStep(x, Pow2(k - 1));
    }
  }

  lemma MaskStep(x: nat, half: nat)
    requires half > 0 && x > 0 && BitAnd(x / 2, half - 1) == (x / 2) % half
    ensures BitAnd(x, 2 * half - 1) == x % (2 * half)
  {
    hide BitAnd;
    HalfRemainder(x, half);
    LowBit(x, half);
  }

  /** One step of `BitAnd` against an all-ones mask. */
  lemma LowBit(x: nat, half: nat)
    requires half > 0 && x > 0
    ensures BitAnd(x, 2 * half - 1) == x % 2 + 2 * BitAnd(x / 2, half - 1)
  {
    var mask := 2 * half - 1;
    assert mask % 2 == 1 && mask / 2 == half - 1;
  }

  lemma HalfRemainder(x: nat, half: nat)
    requires half > 0
    ensures x % (2 * half) == x % 2 + 2 * ((x / 2) % half)
  {
    var h := x / 2;
    var q, r := h / half, h % half;
    assert h == q * half + r;
    assert x == (2 * half) * q + (x % 2 + 2 * r);
    RemainderUnique(x, 2 * half, q, x % 2 + 2 * r);
  }

  /** The quotient and remainder of a division are unique. */
  lemma RemainderUnique(x: int, d: int, q: int, r: int)
    requires d > 0 && 0 <= r < d && x == d * q + r
    ensures x / d == q && x % d == r
  {
    var e := x / d - q;
    assert x == d * (x / d) + x % d;
    assert d * e == d * (x / d) - d * q;
    assert e >= 1 ==> d * e >= d;
    assert e <= -1 ==> d * e <= -d;
  }
}
