/** The key of a cached call stack: the decimal digits of its addresses, one after the other without separators. */
module StackKey {

  function Digit(d: nat): char
    requires d < 10
  {
    '0' + d as char
  }

  /** std::to_string. */
  function Decimal(n: nat): (s: string)
    ensures |s| > 0
  {
    if n < 10 then [Digit(n)] else Decimal(n / 10) + [Digit(n % 10)]
  }

  function Value(s: string): nat {
    if s == "" then 0 else 10 * Value(s[..|s| - 1]) + (s[|s| - 1] as nat - '0' as nat) as int % 10
  }

  lemma {:induction false} ValueDecimal(n: nat)
    ensures Value(Decimal(n)) == n
  {
    if n >= 10 {
      ValueDecimal(n / 10);
      var s := Decimal(n / 10);
      assert Decimal(n)[..|s|] == s;
    } else {
      assert [Digit(n)][..0] == "";
    }
  }

  /** HashStr. */
  function Key(stack: seq<nat>): string {
    if stack == [] then "" else Decimal(stack[0]) + Key(stack[1..])
  }

  method HashStr(stack: seq<nat>) returns (str: string)
    ensures str == Key(stack)
  {
    str := "";
    for k := 0 to |stack|
      invariant str + Key(stack[k..]) == Key(stack)
    {
      assert stack[k..][1..] == stack[k + 1..];
      str := str + Decimal(stack[k]);
    }
    assert stack[|stack|..] == [];
  }

  /** Every address has `w` decimal digits. */
  predicate OfWidth(w: nat, stack: seq<nat>) {
    forall i :: 0 <= i < |stack| ==> |Decimal(stack[i])| == w
  }

  /** Among stacks whose addresses all have the same number of digits, the key tells the stack. */
  lemma {:induction false} KeyInjective(w: nat, a: seq<nat>, b: seq<nat>)
    requires OfWidth(w, a) && OfWidth(w, b) && Key(a) == Key(b)
    ensures a == b
  {
    if a != [] && b != [] {
      assert Decimal(a[0]) == Key(a)[..w] && Decimal(b[0]) == Key(b)[..w];
      ValueDecimal(a[0]);
      ValueDecimal(b[0]);
      assert Key(a[1..]) == Key(a)[w..] && Key(b[1..]) == Key(b)[w..];
      KeyInjective(w, a[1..], b[1..]);
      assert a == [a[0]] + a[1..] && b == [b[0]] + b[1..];
    }
  }

  /** As many addresses, each with as many digits as its counterpart. */
  predicate SameWidths(a: seq<nat>, b: seq<nat>) {
    |a| == |b| && forall i :: 0 <= i < |a| ==> |Decimal(a[i])| == |Decimal(b[i])|
  }

  /** Two stacks with one key are the same exactly when their widths agree. */
  lemma {:induction false} SameKeyIff(a: seq<nat>, b: seq<nat>)
    requires Key(a) == Key(b)
    ensures a == b <==> SameWidths(a, b)
  {
    if a != [] && SameWidths(a, b) {
      var w := |Decimal(a[0])|;
      assert Decimal(a[0]) == Key(a)[..w] && Decimal(b[0]) == Key(b)[..w];
      ValueDecimal(a[0]);
      ValueDecimal(b[0]);
      assert Key(a[1..]) == Key(a)[w..] && Key(b[1..]) == Key(b)[w..];
      SameKeyIff(a[1..], b[1..]);
      assert a == [a[0]] + a[1..] && b == [b[0]] + b[1..];
    }
  }

  /** Addresses of different widths collide: 1 and 23 spell the key of 12 and 3. */
  lemma KeysCollide()
    ensures Key([1, 23]) == Key([12, 3]) == "123" && [1, 23] != [12, 3]
  {
    assert Decimal(23) == "23" && Decimal(12) == "12";
    assert [1, 23][1..] == [23] && [12, 3][1..] == [3] && [23][1..] == [] && [3][1..] == [];
    assert Key([23]) == "23" && Key([3]) == "3";
    assert [1, 23][0] != [12, 3][0];
  }
}
