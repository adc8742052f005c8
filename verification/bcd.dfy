/** Binary-coded decimal fields: two digits a byte, an odd count filled up with 0xf. */
module Bcd {
  import opened Bytes

  const TWO64: nat := 0x1_0000_0000_0000_0000

  type u64 = x: int | 0 <= x < 0x1_0000_0000_0000_0000
  type nibble = x: int | 0 <= x < 16

  /** Arithmetic in 64 bits. */
  function Wrap(v: nat): u64 { v % 0x1_0000_0000_0000_0000 }

  lemma Remainder(v: nat, q: nat, a: u64)
    requires v == q * 0x1_0000_0000_0000_0000 + a
    ensures Wrap(v) == a
  {
  }

  datatype Side = Hi | Lo
  datatype BcdError = BadDigit(side: Side, val: nibble) | Overflow

  // ----- fields and the digits they hold -----

  function Nibble(bcd: seq<byte>, k: nat): nibble
    requires k < 2 * |bcd|
  {
    if k % 2 == 0 then bcd[k / 2] / 16 else bcd[k / 2] % 16
  }

  /** How many digits a field holds: the filler is no digit. */
  function DigitCount(bcd: seq<byte>): nat {
    if bcd != [] && bcd[|bcd| - 1] % 16 == 15 then 2 * |bcd| - 1 else 2 * |bcd|
  }

  function Digits(bcd: seq<byte>): (ds: seq<nibble>)
    ensures |ds| == DigitCount(bcd)
  {
    seq(DigitCount(bcd), k requires 0 <= k < DigitCount(bcd) => Nibble(bcd, k))
  }

  function Join(hi: nibble, lo: nibble): (b: byte)
    ensures b / 16 == hi && b % 16 == lo
  {
    var h: int := hi;
    16 * h + lo
  }

  function Pack(ds: seq<nibble>): (bcd: seq<byte>)
    ensures |bcd| == (|ds| + 1) / 2
  {
    seq((|ds| + 1) / 2, i requires 0 <= i < (|ds| + 1) / 2 =>
      Join(ds[2 * i], if 2 * i + 1 < |ds| then ds[2 * i + 1] else 15))
  }

  predicate AllDecimal(ds: seq<nibble>) { forall k :: 0 <= k < |ds| ==> ds[k] <= 9 }

  lemma PackAt(ds: seq<nibble>, i: nat)
    requires i < (|ds| + 1) / 2
    ensures Pack(ds)[i] == Join(ds[2 * i], if 2 * i + 1 < |ds| then ds[2 * i + 1] else 15)
  {
  }

  lemma PackedCount(ds: seq<nibble>)
    requires AllDecimal(ds)
    ensures DigitCount(Pack(ds)) == |ds|
  {
    if ds != [] {
      PackAt(ds, (|ds| - 1) / 2);
    }
  }

  /** Packing and unpacking are inverse: on decimal digits one way, on every field the other. */
  lemma PackedDigits(ds: seq<nibble>)
    requires AllDecimal(ds)
    ensures Digits(Pack(ds)) == ds
  {
    var bcd := Pack(ds);
    PackedCount(ds);
    forall k | 0 <= k < |ds| ensures Digits(bcd)[k] == ds[k] {
      PackAt(ds, k / 2);
    }
  }

  lemma UnpackedField(bcd: seq<byte>)
    ensures Pack(Digits(bcd)) == bcd
  {
    var ds := Digits(bcd);
    forall i | 0 <= i < |bcd| ensures Pack(ds)[i] == bcd[i] {
      PackAt(ds, i);
      FieldPair(bcd, i);
    }
  }

  lemma FieldPair(bcd: seq<byte>, i: nat)
    requires i < |bcd|
    ensures var ds := Digits(bcd);
      2 * i < |ds| && bcd[i] == Join(ds[2 * i], if 2 * i + 1 < |ds| then ds[2 * i + 1] else 15)
  {
    Nibbles(bcd, i);
    assert 2 * i + 1 >= DigitCount(bcd) ==> i == |bcd| - 1 && bcd[i] % 16 == 15;
  }

  lemma Nibbles(bcd: seq<byte>, i: nat)
    requires i < |bcd|
    ensures Nibble(bcd, 2 * i) == bcd[i] / 16 && Nibble(bcd, 2 * i + 1) == bcd[i] % 16
    ensures bcd[i] == Join(bcd[i] / 16, bcd[i] % 16)
  {
  }

  // ----- numbers -----

  /** The number a digit string denotes, of any length. */
  function Value(ds: seq<nibble>): nat {
    if ds == [] then 0 else 10 * Value(ds[..|ds| - 1]) + ds[|ds| - 1]
  }

  /** The digits of a number, without leading zeros. */
  function Decimal(x: nat): (ds: seq<nibble>)
    ensures |ds| > 0
  {
    if x < 10 then [x] else Decimal(x / 10) + [x % 10]
  }

  lemma {:induction false} DecimalValue(x: nat)
    ensures Value(Decimal(x)) == x && AllDecimal(Decimal(x))
  {
    if x < 10 {
      assert [x][..0] == [];
    } else {
      DecimalValue(x / 10);
      var ds := Decimal(x / 10);
      assert (ds + [x % 10])[..|ds|] == ds;
    }
  }

  /** A digit string that encoding produces: nothing superfluous in front. */
  predicate Canonical(ds: seq<nibble>) { |ds| == 1 || (|ds| > 1 && ds[0] != 0) }

  lemma {:induction false} DecimalCanonical(x: nat)
    ensures Canonical(Decimal(x)) && (x > 0 ==> Decimal(x)[0] != 0)
  {
    if x >= 10 {
      DecimalCanonical(x / 10);
    }
  }

  lemma {:induction false} LeadingDigit(ds: seq<nibble>)
    requires ds != [] && ds[0] != 0
    ensures Value(ds) > 0
  {
    if |ds| > 1 {
      LeadingDigit(ds[..|ds| - 1]);
    }
  }

  lemma {:induction false} DigitsOfValue(ds: seq<nibble>)
    requires AllDecimal(ds) && Canonical(ds)
    ensures Decimal(Value(ds)) == ds
  {
    var n := |ds| - 1;
    if n == 0 {
      assert ds[..0] == [] && ds == [ds[0]];
    } else {
      LeadingDigit(ds[..n]);
      DigitsOfValue(ds[..n]);
      DecimalSnoc(Value(ds[..n]), ds[n]);
      assert ds == ds[..n] + [ds[n]];
    }
  }

  lemma DecimalSnoc(v: nat, d: nibble)
    requires v > 0 && d <= 9
    ensures Decimal(10 * v + d) == Decimal(v) + [d]
  {
  }

  // ----- digits by their weight -----

  /** x with its k last digits dropped. */
  function Dropped(x: nat, k: nat): nat { if k == 0 then x else Dropped(x / 10, k - 1) }

  /** Digit j of the decimal notation of x, counted from the front, is the last of what the digits behind it leave. */
  lemma {:induction false} DigitByWeight(x: nat, j: nat)
    requires j < |Decimal(x)|
    ensures Decimal(x)[j] == Dropped(x, |Decimal(x)| - 1 - j) % 10
  {
    var n := |Decimal(x)|;
    if j < n - 1 {
      DigitByWeight(x / 10, j);
      assert |Decimal(x / 10)| == n - 1;
    }
  }

  /** An encoded field: two digits a byte, the earlier one in the high half, and 0xf behind an odd last one. */
  lemma EncodedField(x: nat, i: nat)
    requires i < |Pack(Decimal(x))|
    ensures var n := |Decimal(x)|;
      && Pack(Decimal(x))[i] / 16 == Dropped(x, n - 1 - 2 * i) % 10
      && Pack(Decimal(x))[i] % 16 == if 2 * i + 1 < n then Dropped(x, n - 2 - 2 * i) % 10 else 15
  {
    var n := |Decimal(x)|;
    PackAt(Decimal(x), i);
    DigitByWeight(x, 2 * i);
    if 2 * i + 1 < n {
      DigitByWeight(x, 2 * i + 1);
    }
  }

  // ----- encoding -----

  lemma LastTwo(x: nat, ds: seq<nibble>)
    requires ds == Decimal(x) && |ds| >= 2
    ensures ds[|ds| - 1] == x % 10 && ds[|ds| - 2] == x / 10 % 10
    ensures if |ds| == 2 then x / 100 == 0 else Decimal(x / 100) == ds[..|ds| - 2]
  {
    var ts := Decimal(x / 10);
    assert ds == ts + [x % 10];
    if x >= 100 {
      assert ts == Decimal(x / 100) + [x / 10 % 10];
      assert ds[..|ds| - 2] == Decimal(x / 100);
    }
  }

  /** Counts the digits of a positive number by dividing it down. */
  method CountDigits(x: u64) returns (n: nat)
    ensures x == 0 ==> n == 0
    ensures x > 0 ==> n == |Decimal(x)|
  {
    n := 0;
    var xx := x;
    while xx > 0
      invariant 0 <= xx
      invariant x > 0 ==> n + (if xx > 0 then |Decimal(xx)| else 0) == |Decimal(x)|
      invariant x == 0 ==> xx == 0 && n == 0
    {
      xx := xx / 10;
      n := n + 1;
    }
  }

  /** Digit pair i from what is left of the number. */
  lemma PairFromRest(x: nat, ds: seq<nibble>, i: nat)
    requires 2 * (i + 1) <= |ds| && Decimal(x) == ds[..2 * (i + 1)]
    ensures Pack(ds)[i] == Join(x / 10 % 10, x % 10)
    ensures i > 0 ==> Decimal(x / 100) == ds[..2 * i]
  {
    LastTwo(x, ds[..2 * (i + 1)]);
    PackAt(ds, i);
    assert ds[..2 * (i + 1)][..2 * i] == ds[..2 * i];
  }

  /** The odd last digit, and the rest. */
  lemma OddLastDigit(x: nat, ds: seq<nibble>)
    requires ds == Decimal(x) && |ds| % 2 == 1
    ensures Pack(ds)[(|ds| - 1) / 2] == Join(x % 10, 15)
    ensures |ds| > 1 ==> Decimal(x / 10) == ds[..|ds| - 1]
  {
    PackAt(ds, (|ds| - 1) / 2);
    if x >= 10 {
      assert ds[..|ds| - 1] == Decimal(x / 10);
    }
  }

  lemma PackedZero()
    ensures Pack(Decimal(0)) == [0x0f]
  {
  }

  /** Writes the digit pairs of `x` into the front of the field, the last pair first. */
  method FillPairs(bcd: array<byte>, x0: nat, n: nat, ghost ds: seq<nibble>)
    requires n <= bcd.Length && 2 * n <= |ds| && |Pack(ds)| == bcd.Length
    requires n > 0 ==> Decimal(x0) == ds[..2 * n]
    requires forall j :: n <= j < bcd.Length ==> bcd[j] == Pack(ds)[j]
    modifies bcd
    ensures bcd[..] == Pack(ds)
  {
    ghost var packed := Pack(ds);
    var x, i := x0, n - 1;
    while i >= 0
      invariant -1 <= i < n
      invariant i >= 0 ==> Decimal(x) == ds[..2 * (i + 1)]
      invariant forall j :: i < j < bcd.Length ==> bcd[j] == packed[j]
    {
      PairFromRest(x, ds, i);
      bcd[i] := Join(x / 10 % 10, x % 10);
      x := x / 100;
      i := i - 1;
    }
  }

  /** The encoder writes the packed digits of its argument. */
  method EncodeBcd(x: u64) returns (r: seq<byte>)
    ensures r == Pack(Decimal(x))
  {
    if x == 0 {
      PackedZero();
      return [0x0f];
    }
    ghost var ds := Decimal(x);
    var n := CountDigits(x);
    var bcd := new byte[(n + 1) / 2](_ => 0);
    if n % 2 == 1 {
      OddLastDigit(x, ds);
      bcd[(n - 1) / 2] := Join(x % 10, 0x0f);
      FillPairs(bcd, x / 10, (n - 1) / 2, ds);
    } else {
      assert ds[..n] == ds;
      FillPairs(bcd, x, n / 2, ds);
    }
    r := bcd[..];
  }

  // ----- decoding -----

  /** x * 10 + digit in 64 bits; the check looks at 5 * x after it may have wrapped. */
  function TimesTenPlus(x: u64, digit: nibble): (r: Result<u64, BcdError>) {
    var x5 := Wrap(Wrap(4 * x) + x);
    if x5 >= 0x8000_0000_0000_0000 || Wrap(2 * x5) > 0xffff_ffff_ffff_ffff - digit then Err(Overflow)
    else Ok(Wrap(Wrap(2 * x5) + digit))
  }

  lemma WrappedQuintuple(v: nat) returns (q: nat)
    ensures Wrap(Wrap(4 * Wrap(v)) + Wrap(v)) == Wrap(5 * v)
    ensures 5 * v == q * 0x1_0000_0000_0000_0000 + Wrap(5 * v)
  {
    var x: int := Wrap(v);
    var n := v / 0x1_0000_0000_0000_0000;
    var y, m := Wrap(4 * x), 4 * x / 0x1_0000_0000_0000_0000;
    var z, k := Wrap(y + x), (y + x) / 0x1_0000_0000_0000_0000;
    q := 5 * n + m + k;
    assert v == n * 0x1_0000_0000_0000_0000 + x;
    assert 4 * x == m * 0x1_0000_0000_0000_0000 + y;
    assert y + x == k * 0x1_0000_0000_0000_0000 + z;
    Remainder(5 * v, q, z);
  }

  /** One digit step on a wrapped number, in terms of the number itself. */
  lemma StepOnWrapped(v: nat, digit: nibble)
    ensures TimesTenPlus(Wrap(v), digit)
      == if 2 * Wrap(5 * v) + digit < 0x1_0000_0000_0000_0000 then Ok(Wrap(10 * v + digit)) else Err(Overflow)
  {
    var q := WrappedQuintuple(v);
    var x5 := Wrap(5 * v);
    if 2 * x5 + digit < 0x1_0000_0000_0000_0000 {
      Remainder(2 * x5, 0, 2 * x5);
      Remainder(2 * x5 + digit, 0, 2 * x5 + digit);
      Remainder(10 * v + digit, 2 * q, 2 * x5 + digit);
    } else if x5 < 0x8000_0000_0000_0000 {
      Remainder(2 * x5, 0, 2 * x5);
    }
  }

  /**
   * One step is right exactly when 5 * x keeps within 64 bits or the wrapped product still
   * trips the check.
   */
  lemma StepIsExactWhen(x: u64, digit: nibble)
    ensures TimesTenPlus(x, digit) == (if 10 * x + digit < TWO64 then Ok(10 * x + digit) else Err(Overflow))
      <==> 5 * x < TWO64 || 2 * Wrap(5 * x) + digit >= TWO64
  {
    Remainder(x, 0, x);
    StepOnWrapped(x, digit);
    var v: nat := x;
    if 5 * v < TWO64 {
      Remainder(5 * v, 0, 5 * v);
      if 10 * v + digit < TWO64 {
        Remainder(10 * v + digit, 0, 10 * v + digit);
      }
    }
  }

  /** The k-th digit is decimal and the step that takes it in does not trip the check. */
  predicate Accepted(ds: seq<nibble>, k: nat)
    requires k < |ds|
  {
    ds[k] <= 9 && 2 * Wrap(5 * Value(ds[..k])) + ds[k] < TWO64
  }

  /** What is reported when the k-th digit is the first not accepted. */
  function ErrorAt(ds: seq<nibble>, k: nat): BcdError
    requires k < |ds|
  {
    if ds[k] > 9 then BadDigit(if k % 2 == 0 then Hi else Lo, ds[k]) else Overflow
  }

  predicate FirstRejected(ds: seq<nibble>, k: nat) {
    k < |ds| && !Accepted(ds, k) && forall j :: 0 <= j < k ==> Accepted(ds, j)
  }

  /** The outcome of decoding a digit string, in terms of the numbers its prefixes denote. */
  ghost predicate Decodes(ds: seq<nibble>, r: Result<u64, BcdError>) {
    match r
    case Ok(x) => (forall k :: 0 <= k < |ds| ==> Accepted(ds, k)) && x == Wrap(Value(ds))
    case Err(e) => exists k :: FirstRejected(ds, k) && e == ErrorAt(ds, k)
  }

  lemma NextPrefix(ds: seq<nibble>, k: nat)
    requires k < |ds|
    ensures Value(ds[..k + 1]) == 10 * Value(ds[..k]) + ds[k]
  {
    assert ds[..k + 1][..k] == ds[..k];
  }

  /** The decoder before digit k: all digits so far were accepted. */
  ghost predicate Reached(ds: seq<nibble>, k: nat, x: u64) {
    k <= |ds| && x == Wrap(Value(ds[..k])) && forall j :: 0 <= j < k ==> Accepted(ds, j)
  }

  lemma ReachedNext(ds: seq<nibble>, k: nat, x: u64)
    requires Reached(ds, k, x) && k < |ds| && ds[k] <= 9
    ensures match TimesTenPlus(x, ds[k])
      case Ok(y) => Reached(ds, k + 1, y)
      case Err(e) => Decodes(ds, Err(e))
  {
    StepOnWrapped(Value(ds[..k]), ds[k]);
    NextPrefix(ds, k);
    if TimesTenPlus(x, ds[k]).Err? {
      assert FirstRejected(ds, k);
    }
  }

  lemma ReachedBadDigit(ds: seq<nibble>, k: nat, x: u64)
    requires Reached(ds, k, x) && k < |ds| && ds[k] > 9
    ensures Decodes(ds, Err(BadDigit(if k % 2 == 0 then Hi else Lo, ds[k])))
  {
    assert FirstRejected(ds, k);
  }

  lemma ReachedEnd(ds: seq<nibble>, x: u64)
    requires Reached(ds, |ds|, x)
    ensures Decodes(ds, Ok(x))
  {
    assert ds[..|ds|] == ds;
  }

  lemma ReachedStart(ds: seq<nibble>)
    ensures Reached(ds, 0, 0)
  {
  }

  /** The decoder's loop. */
  method DecodeBcd(bcd: seq<byte>) returns (r: Result<u64, BcdError>)
    ensures Decodes(Digits(bcd), r)
  {
    ghost var ds := Digits(bcd);
    var x: u64 := 0;
    ReachedStart(ds);
    for i := 0 to |bcd|
      invariant Reached(ds, 2 * i, x)
    {
      var hi: nibble, lo: nibble := bcd[i] / 16, bcd[i] % 16;
      assert hi == ds[2 * i];
      if hi > 9 {
        ReachedBadDigit(ds, 2 * i, x);
        return Err(BadDigit(Hi, hi));
      }
      ReachedNext(ds, 2 * i, x);
      var high := TimesTenPlus(x, hi);
      if high.Err? {
        return high;
      }
      if lo == 0x0f && i == |bcd| - 1 {
        ReachedEnd(ds, high.value);
        return high;
      }
      assert lo == ds[2 * i + 1];
      if lo > 9 {
        ReachedBadDigit(ds, 2 * i + 1, high.value);
        return Err(BadDigit(Lo, lo));
      }
      ReachedNext(ds, 2 * i + 1, high.value);
      var low := TimesTenPlus(high.value, lo);
      if low.Err? {
        return low;
      }
      x := low.value;
    }
    ReachedEnd(ds, x);
    r := Ok(x);
  }

  // ----- what decoding promises -----

  lemma {:induction false} PrefixBound(ds: seq<nibble>, k: nat)
    requires k < |ds|
    ensures 10 * Value(ds[..k]) + ds[k] <= Value(ds)
    decreases |ds|
  {
    var n := |ds| - 1;
    if k < n {
      PrefixBound(ds[..n], k);
      assert ds[..n][..k] == ds[..k];
    }
  }

  /** Every digit string of any length that denotes a number below 2^64 decodes to that number. */
  lemma SmallValuesDecode(ds: seq<nibble>, r: Result<u64, BcdError>)
    requires AllDecimal(ds) && Value(ds) < TWO64 && Decodes(ds, r)
    ensures r == Ok(Value(ds))
  {
    SmallValuesAccepted(ds);
    Remainder(Value(ds), 0, Value(ds));
    assert forall k :: !FirstRejected(ds, k);
  }

  /** The 65th bit of a number: whether its quotient by 2^64 is odd. */
  predicate OddQuotient(v: nat) { v / 0x1_0000_0000_0000_0000 % 2 == 1 }

  lemma EvenAt(v: nat, q: nat, a: u64)
    requires v == 2 * q * 0x1_0000_0000_0000_0000 + a
    ensures !OddQuotient(v)
  {
    assert v / 0x1_0000_0000_0000_0000 == 2 * q;
  }

  lemma OddAt(v: nat, q: nat, a: u64)
    requires v == (2 * q + 1) * 0x1_0000_0000_0000_0000 + a
    ensures OddQuotient(v)
  {
    assert v / 0x1_0000_0000_0000_0000 == 2 * q + 1;
  }

  /** The overflow check sees exactly the 65th bit, before and after the digit is added. */
  lemma CheckSeesOneBit(v: nat, d: nibble)
    ensures 2 * Wrap(5 * v) + d < TWO64 <==> !OddQuotient(10 * v) && !OddQuotient(10 * v + d)
  {
    var q := WrappedQuintuple(v);
    var x := 2 * Wrap(5 * v);
    if x >= TWO64 {
      OddAt(10 * v, q, x - TWO64);
    } else if x + d >= TWO64 {
      OddAt(10 * v + d, q, x + d - TWO64);
    } else {
      EvenAt(10 * v, q, x);
      EvenAt(10 * v + d, q, x + d);
    }
  }

  /** Neither a prefix nor ten times it ever has the 65th bit set. */
  predicate Inconspicuous(ds: seq<nibble>) {
    forall k :: 0 <= k < |ds| ==> EvenStep(ds, k)
  }

  predicate EvenStep(ds: seq<nibble>, k: nat)
    requires k < |ds|
  {
    !OddQuotient(10 * Value(ds[..k])) && !OddQuotient(Value(ds[..k + 1]))
  }

  /**
   * Exactly which decimal strings decode without an error: those with an even quotient by 2^64 at
   * every prefix and at ten times every proper prefix. They decode to their remainder by 2^64,
   * so the wrong answers are the inconspicuous numbers of 2^64 and more.
   */
  lemma DecodesWithoutErrorWhen(ds: seq<nibble>, r: Result<u64, BcdError>)
    requires AllDecimal(ds) && Decodes(ds, r)
    ensures r == if Inconspicuous(ds) then Ok(Wrap(Value(ds))) else Err(Overflow)
  {
    forall k | 0 <= k < |ds| ensures Accepted(ds, k) <==> EvenStep(ds, k) {
      CheckSeesOneBit(Value(ds[..k]), ds[k]);
      NextPrefix(ds, k);
    }
    if r.Err? {
      var k :| FirstRejected(ds, k) && r.error == ErrorAt(ds, k);
      assert !EvenStep(ds, k);
    }
  }

  /** Any prefix with an odd quotient is refused, of whatever size. */
  lemma OddPrefixRefused(ds: seq<nibble>, k: nat, r: Result<u64, BcdError>)
    requires AllDecimal(ds) && k <= |ds| && OddQuotient(Value(ds[..k])) && Decodes(ds, r)
    ensures r == Err(Overflow)
  {
    DecodesWithoutErrorWhen(ds, r);
    assert k > 0 && !EvenStep(ds, k - 1);
  }

  /** In particular a number that leaves the range by less than a factor of two. */
  lemma JustTooLarge(ds: seq<nibble>, r: Result<u64, BcdError>)
    requires AllDecimal(ds) && TWO64 <= Value(ds) < 2 * TWO64 && Decodes(ds, r)
    ensures r == Err(Overflow)
  {
    assert ds[..|ds|] == ds;
    OddAt(Value(ds), 0, Value(ds) - TWO64);
    OddPrefixRefused(ds, |ds|, r);
  }

  lemma SmallValuesAccepted(ds: seq<nibble>)
    requires AllDecimal(ds) && Value(ds) < TWO64
    ensures forall k :: 0 <= k < |ds| ==> Accepted(ds, k)
  {
    forall k | 0 <= k < |ds| ensures Accepted(ds, k) {
      PrefixBound(ds, k);
    }
  }

  /** The check misses a digit whenever 5 * x wrapped to something small: the remainder is the outcome. */
  lemma MissedOverflow(ds: seq<nibble>, d: nibble)
    requires AllDecimal(ds) && Value(ds) < TWO64 && d <= 9
    requires 5 * Value(ds) >= TWO64 && 2 * Wrap(5 * Value(ds)) + d < TWO64
    ensures Value(ds + [d]) >= TWO64
    ensures forall r :: Decodes(ds + [d], r) <==> r == Ok(2 * Wrap(5 * Value(ds)) + d)
  {
    var all := ds + [d];
    assert all[..|ds|] == ds;
    SmallValuesAccepted(ds);
    forall k | 0 <= k < |all| ensures Accepted(all, k) {
      if k < |ds| {
        assert all[..k] == ds[..k];
        assert Accepted(ds, k);
      }
    }
    var q := WrappedQuintuple(Value(ds));
    Remainder(Value(all), 2 * q, 2 * Wrap(5 * Value(ds)) + d);
  }

  lemma TenTimes(x: nat)
    ensures AllDecimal(Decimal(x) + [0]) && Value(Decimal(x) + [0]) == 10 * x
  {
    var ds := Decimal(x);
    DecimalValue(x);
    assert (ds + [0])[..|ds|] == ds;
  }

  /** Twenty digits that decode to 8. */
  lemma SilentOverflow(x: nat)
    requires x == 3689348814741910324
    ensures AllDecimal(Decimal(x) + [0]) && Value(Decimal(x) + [0]) == 36893488147419103240
    ensures forall r :: Decodes(Decimal(x) + [0], r) <==> r == Ok(8)
  {
    TenTimes(x);
    DecimalValue(x);
    Remainder(5 * x, 1, 4);
    MissedOverflow(Decimal(x), 0);
  }

  /** Encoding then decoding gives every 64-bit number back. */
  lemma BcdRoundTrip(x: u64, r: Result<u64, BcdError>)
    requires Decodes(Digits(Pack(Decimal(x))), r)
    ensures r == Ok(x)
  {
    DecimalValue(x);
    PackedDigits(Decimal(x));
    SmallValuesDecode(Decimal(x), r);
  }

  /** Decoding then encoding gives the field back exactly when it has no superfluous zeros. */
  lemma FieldRoundTrip(bcd: seq<byte>)
    requires AllDecimal(Digits(bcd)) && Value(Digits(bcd)) < TWO64
    ensures Pack(Decimal(Value(Digits(bcd)))) == bcd <==> Canonical(Digits(bcd))
  {
    var ds := Digits(bcd);
    UnpackedField(bcd);
    if Canonical(ds) {
      DigitsOfValue(ds);
    }
    DecimalValue(Value(ds));
    DecimalCanonical(Value(ds));
    PackedDigits(Decimal(Value(ds)));
  }
}
