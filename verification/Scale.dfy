/**
  Scaling a 32-bit number by a/b without a wider intermediate. Every operation wraps
  at 32 bits, and says so here.
  */
module Scale {

  const WORD := 0x1_0000_0000

  function Wrap(n: int): (r: nat)
    ensures r < WORD
  {
    n % WORD
  }

  /** What the second multiplication gives before it wraps. */
  function RestProduct(x: nat, a: nat, b: nat): nat
    requires b > 0
  {
    x % b * a
  }

  function Front(x: nat, a: nat, b: nat): nat
    requires b > 0
  {
    x / b * a
  }

  function Scale32(x: nat, a: nat, b: nat): (r: nat)
    requires b > 0
    ensures r < WORD
  {
    var xOverB := x / b;
    var xModB := x % b;
    var product := Wrap(xModB * a);
    Wrap(Wrap(xOverB * a) + product / b)
  }

  lemma DivisionIs(n: int, d: int, q: int)
    requires d > 0 && q * d <= n < q * d + d
    ensures n / d == q
  {
    var e := n / d;
    assert e * d <= n < e * d + d;
    ProductOrder(e + 1, q, d);
    ProductOrder(q + 1, e, d);
  }

  lemma ProductOrder(x: int, y: int, a: nat)
    ensures x <= y ==> x * a <= y * a
  {
    if x <= y {
      assert (y - x) * a >= 0;
    }
  }

  /** What scaling is to compute. */
  function Scaled(x: nat, a: nat, b: nat): nat
    requires b > 0
  {
    x * a / b
  }

  /** The quotient in two parts. */
  lemma InParts(x: nat, a: nat, b: nat)
    requires b > 0
    ensures Scaled(x, a, b) == Front(x, a, b) + RestProduct(x, a, b) / b
  {
    var q, r := x / b, x % b;
    var e := r * a / b;
    assert x == q * b + r;
    assert x * a == q * a * b + r * a by {
      assert (q * b) * a == q * a * b;
    }
    assert e * b <= r * a < e * b + b;
    assert (q * a + e) * b == q * a * b + e * b;
    DivisionIs(x * a, b, q * a + e);
  }

  lemma WrapSum(m: nat, n: nat)
    ensures Wrap(Wrap(m) + n) == Wrap(m + n)
  {
    var q := m / WORD;
    assert m == q * WORD + m % WORD;
    WrapTurns(m % WORD + n, q);
  }

  lemma {:induction false} WrapTurns(n: nat, turns: nat)
    ensures Wrap(turns * WORD + n) == Wrap(n)
  {
    if turns > 0 {
      WrapTurns(n, turns - 1);
      assert turns * WORD + n == ((turns - 1) * WORD + n) + WORD;
    }
  }

  /** If a * b fits a word then the product of the remainder does not wrap. */
  lemma RemainderFits(x: nat, a: nat, b: nat)
    requires b > 0 && a * b < WORD
    ensures RestProduct(x, a, b) < WORD
  {
    ProductOrder(x % b, b, a);
  }

  lemma QuotientGrows(m: nat, n: nat, d: nat)
    requires d > 0
    ensures m <= n ==> m / d <= n / d
    ensures m + d <= n ==> m / d + 1 <= n / d
  {
    var e, f := m / d, n / d;
    assert e * d <= m && n < f * d + d;
    ProductOrder(f + 1, e, d);
    ProductOrder(f + 1, e + 1, d);
  }

  lemma QuotientBelow(r: nat, a: nat, b: nat)
    requires r < b
    ensures r * a / b <= a
  {
    ProductOrder(r, b, a);
    QuotientGrows(r * a, b * a, b);
    DivisionIs(b * a, b, a);
  }

  /** Numbers less than a word apart wrap to the same number only if they are the same. */
  lemma WrapApart(m: nat, d: nat)
    requires d < WORD
    ensures Wrap(m + d) == Wrap(m) <==> d == 0
  {
  }

  /** Only the wrap of the remainder's product loses anything that the last wrap would not. */
  lemma LostToWrap(product: nat, b: nat)
    requires 0 < b < WORD
    ensures Wrap(product) / b <= product / b
    ensures Wrap(product) / b == product / b <==> product < WORD
  {
    assert product >= WORD ==> Wrap(product) + WORD <= product;
    QuotientGrows(Wrap(product), product, b);
  }

  lemma WrapParts(front: nat, product: nat, a: nat, b: nat)
    requires 0 < b < WORD && product / b <= a < WORD
    ensures Wrap(Wrap(front) + Wrap(product) / b) == Wrap(front + product / b) <==> product < WORD
  {
    hide Wrap;
    LostToWrap(product, b);
    var kept, whole := Wrap(product) / b, product / b;
    WrapSum(front, kept);
    WrapApart(front + kept, whole - kept);
  }

  /**
    For any words the result is the quotient modulo 2^32 exactly if the product of the
    remainder fits a word; no other wrap does harm.
    */
  lemma ScaleIsQuotientIff(x: nat, a: nat, b: nat)
    requires a < WORD && 0 < b < WORD
    ensures Scale32(x, a, b) == Wrap(Scaled(x, a, b)) <==> RestProduct(x, a, b) < WORD
  {
    hide Wrap, Scaled, Scale32, RestProduct, Front;
    InParts(x, a, b);
    ScaleUnfolds(x, a, b);
    RestBelow(x, a, b);
    WrapParts(Front(x, a, b), RestProduct(x, a, b), a, b);
  }

  lemma ScaleUnfolds(x: nat, a: nat, b: nat)
    requires b > 0
    ensures Scale32(x, a, b) == Wrap(Wrap(Front(x, a, b)) + Wrap(RestProduct(x, a, b)) / b)
  {
    hide Wrap;
  }

  lemma RestBelow(x: nat, a: nat, b: nat)
    requires b > 0
    ensures RestProduct(x, a, b) / b <= a
  {
    QuotientBelow(x % b, a, b);
  }

  lemma WordsFit(a: nat, b: nat)
    requires a * b < WORD && a > 0 && b > 0
    ensures a < WORD && b < WORD
  {
    ProductOrder(1, a, b);
    ProductOrder(1, b, a);
  }

  lemma ScaleByNothing(x: nat, b: nat)
    requires b > 0
    ensures Scale32(x, 0, b) == 0 && Scaled(x, 0, b) == 0 && Wrap(0) == 0
  {
    DivisionIs(0, b, 0);
  }

  /** What the header requires of a and b is enough for that. */
  lemma ScaleIsQuotient(x: nat, a: nat, b: nat)
    requires b > 0 && a * b < WORD
    ensures Scale32(x, a, b) == Wrap(Scaled(x, a, b))
  {
    hide Wrap, Scaled, Scale32, RestProduct;
    if a == 0 {
      ScaleByNothing(x, b);
    } else {
      WordsFit(a, b);
      RemainderFits(x, a, b);
      ScaleIsQuotientIff(x, a, b);
    }
  }

  lemma WrapSmall(n: nat)
    ensures Wrap(n) == n <==> n < WORD
  {
  }

  /** So it is the quotient exactly when the quotient fits a word. */
  lemma ScaleIsExactIff(x: nat, a: nat, b: nat)
    requires b > 0 && a * b < WORD
    ensures Scale32(x, a, b) == Scaled(x, a, b) <==> Scaled(x, a, b) < WORD
  {
    hide Wrap, Scale32, Scaled;
    ScaleIsQuotient(x, a, b);
    WrapSmall(Scaled(x, a, b));
  }

  /**
    The fractions that scale some number wrongly are exactly those whose largest remainder,
    b - 1, has a product that overflows; they scale b - 1 itself wrongly.
    */
  lemma TooLargeAFraction(a: nat, b: nat)
    requires a < WORD && 0 < b < WORD
    ensures (b - 1) * a >= WORD ==> Scale32(b - 1, a, b) != Wrap(Scaled(b - 1, a, b))
    ensures (b - 1) * a < WORD ==> forall x: nat :: Scale32(x, a, b) == Wrap(Scaled(x, a, b))
  {
    hide Wrap, Scale32, Scaled, RestProduct;
    LargestRemainder(a, b);
    ScaleIsQuotientIff(b - 1, a, b);
    if (b - 1) * a < WORD {
      forall x: nat ensures Scale32(x, a, b) == Wrap(Scaled(x, a, b)) {
        RestAtMost(x, a, b);
        ScaleIsQuotientIff(x, a, b);
      }
    }
  }

  lemma LargestRemainder(a: nat, b: nat)
    requires b > 0
    ensures RestProduct(b - 1, a, b) == (b - 1) * a
  {
    assert (b - 1) % b == b - 1;
  }

  lemma RestAtMost(x: nat, a: nat, b: nat)
    requires b > 0
    ensures RestProduct(x, a, b) <= (b - 1) * a
  {
    ProductOrder(x % b, b - 1, a);
  }

  function Ceiling(n: nat, d: nat): nat
    requires d > 0
  {
    (n + d - 1) / d
  }

  /**
    Scaling by a/b and then by b/a loses the first division's remainder, counted in units
    of a and rounded up; so it never gains, and loses at most (b - 1) / a rounded up.
    */
  lemma RoundTrip(x: nat, a: nat, b: nat)
    requires x < WORD && a > 0 && b > 0 && a * b < WORD
    requires Scaled(x, a, b) < WORD
    ensures
      var z := Scale32(Scale32(x, a, b), b, a);
      && z == x - Ceiling(x * a % b, a)
      && x - Ceiling(b - 1, a) <= z <= x
  {
    hide Scale32, Scaled, Ceiling;
    ScaleIsExactIff(x, a, b);
    ThereAndBack(x, a, b);
    assert b * a == a * b;
    ScaleIsExactIff(Scaled(x, a, b), b, a);
    CeilingGrows(x * a % b, b - 1, a);
  }

  lemma ThereAndBack(x: nat, a: nat, b: nat)
    requires a > 0 && b > 0
    ensures Scaled(Scaled(x, a, b), b, a) == x - Ceiling(x * a % b, a)
  {
    hide Ceiling;
    var y, r := x * a / b, x * a % b;
    assert y * b == x * a - r;
    var c := Ceiling(r, a);
    CeilingBounds(r, a);
    assert (x - c) * a == x * a - c * a;
    DivisionIs(y * b, a, x - c);
  }

  lemma CeilingBounds(n: nat, d: nat)
    requires d > 0
    ensures n <= Ceiling(n, d) * d < n + d
  {
  }

  lemma CeilingGrows(m: nat, n: nat, d: nat)
    requires d > 0 && m <= n
    ensures Ceiling(m, d) <= Ceiling(n, d)
  {
    CeilingBounds(m, d);
    CeilingBounds(n, d);
    ProductOrder(Ceiling(n, d), Ceiling(m, d) - 1, d);
    assert (Ceiling(m, d) - 1) * d == Ceiling(m, d) * d - d;
  }
}
