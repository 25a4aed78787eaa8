/**
 * Dotted-quad IPv4 helpers of pritunl/utils.py: `ip_to_long`, `long_to_ip`,
 * `subnet_to_cidr` and `network_addr`. Python integers are unbounded and
 * two's complement for the bit operations, so values are `int` and the
 * shifts and masks are written as floor division and Euclidean remainder
 * (which agree with Python's `>>` and `& 0xff` for every sign).
 */
module IPv4 {
  import opened Wrappers
  import opened PyStr

  const Two32: int := 0x1_0000_0000

  function Pow256(i: nat): nat {
    if i == 0 then 1 else 256 * Pow256(i - 1)
  }

  function Pow2(i: nat): nat
    ensures Pow2(i) >= 1
  {
    if i == 0 then 1 else 2 * Pow2(i - 1)
  }

  function Reversed<T>(s: seq<T>): (r: seq<T>)
    ensures |r| == |s|
  {
    if s == [] then [] else [s[|s| - 1]] + Reversed(s[..|s| - 1])
  }

  function Zeros(k: nat): (r: seq<string>)
    ensures |r| == k
  {
    if k == 0 then [] else ["0"] + Zeros(k - 1)
  }

  /**
   * The list after `while len(ip) < 4: ip.insert(1, '0')`: zeros go in
   * right after the first (that is, the last written) octet.
   */
  function Padded(ip: seq<string>): (r: seq<string>)
    requires |ip| >= 1
    ensures |r| == if |ip| >= 4 then |ip| else 4
  {
    if |ip| >= 4 then ip else ip[..1] + Zeros(4 - |ip|) + ip[1..]
  }

  /**
   * `sum(long(b) << 8 * i for i, b in enumerate(ip))` in the order the
   * generator runs; any unparsable part raises ValueError (None).
   */
  function ShiftedSum(ip: seq<string>): Option<int> {
    if ip == [] then Some(0)
    else
      match (ShiftedSum(ip[..|ip| - 1]), ParseInt(ip[|ip| - 1]))
      case (Some(s), Some(v)) => Some(s + v * Pow256(|ip| - 1))
      case _ => None
  }

  /** The same sum read as base-256 digits, least significant first. */
  function OctetValue(ip: seq<string>): Option<int> {
    if ip == [] then Some(0)
    else
      match (ParseInt(ip[0]), OctetValue(ip[1..]))
      case (Some(v), Some(rest)) => Some(v + 256 * rest)
      case _ => None
  }

  /** The value `ip_to_long(s)` returns, or None where it raises ValueError. */
  function IpValue(s: string): Option<int> {
    OctetValue(Padded(Reversed(Split(s, '.'))))
  }

  lemma ScaleShift(s: int, v: int, p: int)
    ensures 256 * (s + v * p) == 256 * s + v * (256 * p)
  {
  }

  lemma {:induction false} OctetValueSnoc(a: seq<string>, x: string)
    ensures OctetValue(a + [x]) ==
      match (OctetValue(a), ParseInt(x))
      case (Some(s), Some(v)) => Some(s + v * Pow256(|a|))
      case _ => None
  {
    if a == [] {
      assert a + [x] == [x];
      assert [x][1..] == [];
    } else {
      assert (a + [x])[0] == a[0];
      assert (a + [x])[1..] == a[1..] + [x];
      OctetValueSnoc(a[1..], x);
      match (OctetValue(a[1..]), ParseInt(x))
      case (Some(s), Some(v)) =>
        ScaleShift(s, v, Pow256(|a| - 1));
      case _ =>
    }
  }

  /** The generator's running sum and the base-256 reading agree. */
  lemma {:induction false} ShiftedSumIsOctetValue(ip: seq<string>)
    ensures ShiftedSum(ip) == OctetValue(ip)
    decreases |ip|
  {
    if ip != [] {
      var init, last := ip[..|ip| - 1], ip[|ip| - 1];
      ShiftedSumIsOctetValue(init);
      OctetValueSnoc(init, last);
      assert init + [last] == ip;
    }
  }

  lemma {:induction false} ShiftedSumNone(ip: seq<string>, k: nat)
    requires k <= |ip| && ShiftedSum(ip[..k]).None?
    ensures ShiftedSum(ip).None?
    decreases |ip| - k
  {
    if k < |ip| {
      assert ip[..k + 1][..k] == ip[..k];
      ShiftedSumNone(ip, k + 1);
    } else {
      assert ip[..k] == ip;
    }
  }

  lemma ShiftedSumStep(ip: seq<string>, i: nat, sum: int, v: int, weight: int)
    requires i < |ip| && ShiftedSum(ip[..i]) == Some(sum) && ParseInt(ip[i]) == Some(v)
    requires weight == Pow256(i)
    ensures ShiftedSum(ip[..i + 1]) == Some(sum + v * weight)
  {
    assert ip[..i + 1][..i] == ip[..i];
  }

  /** `ip_to_long`: split, reverse, pad to four parts, then add up the octets. */
  method IpToLong(s: string) returns (r: Option<int>)
    ensures r == IpValue(s)
  {
    var ip := PadParts(Reversed(Split(s, '.')));
    r := SumShifted(ip);
    ShiftedSumIsOctetValue(ip);
  }

  /** `while len(ip) < 4: ip.insert(1, '0')`. */
  method PadParts(reversed: seq<string>) returns (ip: seq<string>)
    requires |reversed| >= 1
    ensures ip == Padded(reversed)
  {
    ip := reversed;
    while |ip| < 4
      invariant |ip| >= 1
      invariant |reversed| < 4 ==> |ip| <= 4 && ip == reversed[..1] + Zeros(|ip| - |reversed|) + reversed[1..]
      invariant |reversed| >= 4 ==> ip == reversed
      decreases 4 - |ip|
    {
      ghost var zeros := |ip| - |reversed|;
      assert ip[..1] == reversed[..1] && ip[1..] == Zeros(zeros) + reversed[1..];
      assert ["0"] + Zeros(zeros) == Zeros(zeros + 1);
      ip := ip[..1] + ["0"] + ip[1..];
    }
  }

  /** `sum(long(b) << 8 * i for i, b in enumerate(ip))`, stopping at the first ValueError. */
  method SumShifted(ip: seq<string>) returns (r: Option<int>)
    ensures r == ShiftedSum(ip)
  {
    var sum := 0;
    var i := 0;
    while i < |ip|
      invariant 0 <= i <= |ip|
      invariant ShiftedSum(ip[..i]) == Some(sum)
    {
      var b := ParseInt(ip[i]);
      if b.None? {
        assert ip[..i + 1][..i] == ip[..i];
        ShiftedSumNone(ip, i + 1);
        return None;
      }
      ShiftedSumStep(ip, i, sum, b.value, Pow256(i));
      sum := sum + b.value * Pow256(i);
      i := i + 1;
    }
    assert ip[..i] == ip;
    r := Some(sum);
  }

  /** `long_to_ip`: the four octets `(n >> 24) & 0xff`, ..., `n & 0xff`, dot-joined. */
  function LongToIp(n: int): string {
    Join(OctetStrings(n), '.')
  }

  lemma ReversedFour<T>(s: seq<T>)
    requires |s| == 4
    ensures Reversed(s) == [s[3], s[2], s[1], s[0]]
  {
    assert s[..3][..2] == s[..2] && s[..2][..1] == s[..1] && s[..1][..0] == [];
    assert Reversed(s[..1]) == [s[0]];
    assert Reversed(s[..2]) == [s[1], s[0]];
    assert Reversed(s[..3]) == [s[2], s[1], s[0]];
  }

  lemma NatToStringFree(n: nat, sep: char)
    requires !IsDigit(sep)
    ensures Free(NatToString(n), sep)
  {
  }

  lemma OctetsRecompose(n: int)
    ensures n % 256 + (n / 0x100) % 256 * 0x100 + (n / 0x1_0000) % 256 * 0x1_0000
            + (n / 0x100_0000) % 256 * 0x100_0000 == n % Two32
  {
    var q1, r0 := n / 256, n % 256;
    var q2, r1 := q1 / 256, q1 % 256;
    var q3, r2 := q2 / 256, q2 % 256;
    var q4, r3 := q3 / 256, q3 % 256;
    assert n == q1 * 256 + r0;
    assert q1 == q2 * 256 + r1;
    assert q2 == q3 * 256 + r2;
    assert q3 == q4 * 256 + r3;
    assert n == q4 * Two32 + (r3 * 0x100_0000 + r2 * 0x1_0000 + r1 * 0x100 + r0);
    assert n / 0x1_0000 == q2;
    assert n / 0x100_0000 == q3;
    assert n % Two32 == r3 * 0x100_0000 + r2 * 0x1_0000 + r1 * 0x100 + r0;
  }

  /** The four dotted parts of `LongToIp(n)`, most significant first. */
  function OctetStrings(n: int): seq<string> {
    [NatToString((n / 0x100_0000) % 256), NatToString((n / 0x1_0000) % 256),
     NatToString((n / 0x100) % 256), NatToString(n % 256)]
  }

  lemma SplitLongToIp(n: int)
    ensures Split(LongToIp(n), '.') == OctetStrings(n)
  {
    var parts := OctetStrings(n);
    forall k | 0 <= k < 4 ensures Free(parts[k], '.') {
      NatToStringFree([(n / 0x100_0000) % 256, (n / 0x1_0000) % 256, (n / 0x100) % 256, n % 256][k], '.');
    }
    SplitJoin(parts, '.');
  }

  lemma SumOfFourOctets(ip: seq<string>, o0: int, o1: int, o2: int, o3: int)
    requires |ip| == 4
    requires ParseInt(ip[0]) == Some(o0) && ParseInt(ip[1]) == Some(o1)
    requires ParseInt(ip[2]) == Some(o2) && ParseInt(ip[3]) == Some(o3)
    ensures OctetValue(ip) == Some(o0 + o1 * 0x100 + o2 * 0x1_0000 + o3 * 0x100_0000)
  {
    assert ip[1..][1..][1..][1..] == [];
    assert OctetValue(ip[3..]) == Some(o3);
    assert ip[1..][1..][1..] == ip[3..] && ip[1..][1..] == ip[2..];
    assert OctetValue(ip[2..]) == Some(o2 + 256 * o3);
    assert OctetValue(ip[1..]) == Some(o1 + 256 * (o2 + 256 * o3));
  }

  /** The dotted form of `n` splits back into its four octets, lowest first once reversed. */
  lemma PaddedLongToIp(n: int)
    ensures var parts := OctetStrings(n);
      Padded(Reversed(Split(LongToIp(n), '.'))) == [parts[3], parts[2], parts[1], parts[0]]
  {
    SplitLongToIp(n);
    ReversedFour(OctetStrings(n));
  }

  /** The four octet strings of `n`, lowest first, sum back to the low 32 bits of `n`. */
  lemma OctetStringsValue(n: int)
    ensures var parts := OctetStrings(n);
      OctetValue([parts[3], parts[2], parts[1], parts[0]]) == Some(n % Two32)
  {
    var parts := OctetStrings(n);
    var o0, o1, o2, o3 := n % 256, (n / 0x100) % 256, (n / 0x1_0000) % 256, (n / 0x100_0000) % 256;
    ParseNatToString(o0);
    ParseNatToString(o1);
    ParseNatToString(o2);
    ParseNatToString(o3);
    SumOfFourOctets([parts[3], parts[2], parts[1], parts[0]], o0, o1, o2, o3);
    OctetsRecompose(n);
  }

  /** `ip_to_long(long_to_ip(n)) == n` for every 32-bit n, and the low 32 bits of any n. */
  lemma IpValueOfLongToIp(n: int)
    ensures IpValue(LongToIp(n)) == Some(n % Two32)
  {
    PaddedLongToIp(n);
    OctetStringsValue(n);
  }

  lemma {:induction false} ReversedAppend<T>(a: seq<T>, b: seq<T>)
    ensures Reversed(a + b) == Reversed(b) + Reversed(a)
    decreases |b|
  {
    if b == [] {
      assert a + b == a;
    } else {
      assert (a + b)[..|a + b| - 1] == a + b[..|b| - 1];
      ReversedAppend(a, b[..|b| - 1]);
    }
  }

  lemma {:induction false} ZerosAt(k: nat, i: nat)
    requires i < k
    ensures Zeros(k)[i] == "0"
  {
    if i > 0 {
      ZerosAt(k - 1, i - 1);
    }
  }

  lemma {:induction false} ZerosSnoc(k: nat)
    ensures Zeros(k + 1) == Zeros(k) + ["0"]
  {
    if k > 0 {
      ZerosSnoc(k - 1);
    }
  }

  lemma {:induction false} ReversedZeros(k: nat)
    ensures Reversed(Zeros(k)) == Zeros(k)
  {
    if k > 0 {
      ZerosSnoc(k - 1);
      assert Zeros(k)[..k - 1] == Zeros(k - 1);
      ReversedZeros(k - 1);
    }
  }

  /** Padding the reversed short form is reversing the form with zeros before its last part. */
  lemma {:induction false} PaddedShortForm(ps: seq<string>)
    requires 1 <= |ps| <= 4
    ensures Padded(Reversed(ps)) == Reversed(ps[..|ps| - 1] + Zeros(4 - |ps|) + [ps[|ps| - 1]])
  {
    var n := |ps|;
    var front := ps[..n - 1];
    var qs := front + Zeros(4 - n) + [ps[n - 1]];
    assert ps == front + [ps[n - 1]];
    ReversedAppend(front, [ps[n - 1]]);
    ReversedAppend(front + Zeros(4 - n), [ps[n - 1]]);
    ReversedAppend(front, Zeros(4 - n));
    ReversedZeros(4 - n);
    assert Reversed([ps[n - 1]]) == [ps[n - 1]];
    var rp := Reversed(ps);
    assert rp == [ps[n - 1]] + Reversed(front);
    assert qs[..3] == front + Zeros(4 - n);
    assert Reversed(qs) == [ps[n - 1]] + (Zeros(4 - n) + Reversed(front));
    if n < 4 {
      assert rp[..1] == [ps[n - 1]] && rp[1..] == Reversed(front);
    } else {
      assert qs == ps;
    }
  }

  /**
   * A short dotted form is read with zeros between its last part and the
   * rest: with parts p1 .. pn (n < 4), "p1. .. .pn" is "p1. .. .0. .. .pn".
   */
  lemma {:induction false} ShortFormPadding(ps: seq<string>)
    requires 1 <= |ps| <= 4
    requires forall k :: 0 <= k < |ps| ==> Free(ps[k], '.')
    ensures IpValue(Join(ps, '.')) == IpValue(Join(ps[..|ps| - 1] + Zeros(4 - |ps|) + [ps[|ps| - 1]], '.'))
  {
    var n := |ps|;
    var qs := ps[..n - 1] + Zeros(4 - n) + [ps[n - 1]];
    SplitJoin(ps, '.');
    forall k | 0 <= k < 4 ensures Free(qs[k], '.') {
      if k < n - 1 { assert qs[k] == ps[k]; }
      else if k < 3 { ZerosAt(4 - n, k - (n - 1)); assert qs[k] == "0"; }
      else { assert qs[k] == ps[n - 1]; }
    }
    SplitJoin(qs, '.');
    PaddedShortForm(ps);
  }

  /** "10.1" denotes the same address as "10.0.0.1". */
  lemma ShortFormExample()
    ensures IpValue("10.1") == IpValue("10.0.0.1")
  {
    var ps := ["10", "1"];
    assert Join(ps, '.') == "10.1";
    assert ps[..1] + Zeros(2) + [ps[1]] == ["10", "0", "0", "1"];
    assert Join(["10", "0", "0", "1"], '.') == "10.0.0.1";
    ShortFormPadding(ps);
  }

  /** Bit c of m in two's complement, `(m >> c) & 1`. */
  function Bit(m: int, c: nat): int
    decreases c
  {
    if c == 0 then m % 2 else Bit(m / 2, c - 1)
  }

  /** The number of trailing zero bits of a non-zero integer. */
  function TrailingZeros(m: int): nat
    requires m != 0
    decreases Abs(m)
  {
    if m % 2 == 0 then 1 + TrailingZeros(m / 2) else 0
  }

  lemma {:induction false} BitBelowTrailingZeros(m: int, c: nat)
    requires m != 0 && c <= TrailingZeros(m)
    ensures Bit(m, c) == 0 <==> c < TrailingZeros(m)
    decreases c
  {
    if c > 0 {
      BitBelowTrailingZeros(m / 2, c - 1);
    }
  }

  lemma {:induction false} BitIsZeroOrOne(x: int, c: nat)
    ensures Bit(x, c) == 0 || Bit(x, c) == 1
    decreases c
  {
    if c > 0 {
      BitIsZeroOrOne(x / 2, c - 1);
    }
  }

  /** `~m`, that is `-m - 1`, has every bit of m flipped. */
  lemma {:induction false} BitOfComplement(m: int, c: nat)
    ensures Bit(-m - 1, c) == 1 - Bit(m, c)
    decreases c
  {
    if c > 0 {
      assert (-m - 1) / 2 == -(m / 2) - 1;
      BitOfComplement(m / 2, c - 1);
    }
  }

  /** Masking with `2**c` keeps bit c alone. */
  lemma {:induction false} AndPow2(x: int, c: nat)
    ensures And(x, Pow2(c)) == Pow2(c) * Bit(x, c)
    decreases c
  {
    BitOfZeroAndMinusOne(c);
    if c > 0 && x != 0 && x != -1 {
      var p := Pow2(c - 1);
      assert Pow2(c) == 2 * p;
      assert (2 * p) / 2 == p && (2 * p) % 2 == 0;
      assert And(x, 2 * p) == 2 * And(x / 2, p);
      AndPow2(x / 2, c - 1);
      assert Bit(x, c) == Bit(x / 2, c - 1);
      DoubleTimes(p, Bit(x / 2, c - 1));
    }
  }

  /** The loop test `~mask & 2**count` of `subnet_to_cidr` is non-zero exactly when bit `count` of the mask is 0. */
  lemma LoopTest(m: int, c: nat)
    ensures And(-m - 1, Pow2(c)) != 0 <==> Bit(m, c) == 0
  {
    AndPow2(-m - 1, c);
    BitOfComplement(m, c);
    BitIsZeroOrOne(m, c);
  }

  /** The prefix length `subnet_to_cidr` reports, where it terminates. */
  function Cidr(subnet: string): Option<int>
    requires IpValue(subnet) != Some(0)
  {
    match IpValue(subnet)
    case None => None
    case Some(m) => Some(32 - TrailingZeros(m))
  }

  /**
   * `subnet_to_cidr`: counts the zero bits below the lowest set bit of the
   * mask, testing `~mask & 2**count` as the source does. The source loops for ever on a zero mask, hence the
   * precondition; an unparsable mask raises ValueError (None).
   */
  method SubnetToCidr(subnet: string) returns (r: Option<int>)
    requires IpValue(subnet) != Some(0)
    ensures r == Cidr(subnet)
  {
    // The source re-parses the mask in every loop test; the value is the same each time.
    var mask := IpToLong(subnet);
    if mask.None? {
      return None;
    }
    var m := mask.value;
    var count := 0;
    BitBelowTrailingZeros(m, 0);
    LoopTest(m, 0);
    while And(-m - 1, Pow2(count)) != 0
      invariant count <= TrailingZeros(m)
      invariant And(-m - 1, Pow2(count)) != 0 <==> count < TrailingZeros(m)
      decreases TrailingZeros(m) - count
    {
      count := count + 1;
      BitBelowTrailingZeros(m, count);
      LoopTest(m, count);
    }
    r := Some(32 - count);
  }

  /** The 32-bit mask with k leading one bits. */
  function MaskBits(k: nat): int
    requires k <= 32
  {
    Pow2(32) - Pow2(32 - k)
  }

  lemma {:induction false} Pow2Add(a: nat, b: nat)
    ensures Pow2(a + b) == Pow2(a) * Pow2(b)
  {
    if a > 0 {
      Pow2Add(a - 1, b);
    }
  }

  lemma Pow2ThirtyTwo()
    ensures Pow2(32) == Two32
  {
    assert Pow2(2) == 4;
    Pow2Add(2, 2);
    Pow2Add(4, 4);
    Pow2Add(8, 8);
    Pow2Add(16, 16);
  }

  lemma DoubleTimes(p: int, q: int)
    ensures (2 * p) * q == 2 * (p * q)
  {
  }

  lemma {:induction false} TrailingZerosOfShiftedOdd(j: nat, odd: int)
    requires odd % 2 == 1
    ensures Pow2(j) * odd != 0 && TrailingZeros(Pow2(j) * odd) == j
  {
    if j > 0 {
      TrailingZerosOfShiftedOdd(j - 1, odd);
      var p := Pow2(j - 1);
      var x := p * odd;
      DoubleTimes(p, odd);
      assert Pow2(j) * odd == 2 * x;
      assert (2 * x) % 2 == 0 && (2 * x) / 2 == x;
    }
  }

  lemma {:induction false} Pow2Increasing(a: nat, b: nat)
    requires a < b
    ensures Pow2(a) < Pow2(b)
    decreases b
  {
    if a < b - 1 {
      Pow2Increasing(a, b - 1);
    }
  }

  lemma Pow2Even(k: nat)
    requires k >= 1
    ensures Pow2(k) % 2 == 0
  {
    var half := Pow2(k - 1);
    assert Pow2(k) == 2 * half;
  }

  lemma OddFactor(m: int, total: int, low: int, high: int)
    requires total == low * high && m == total - low && high % 2 == 0
    ensures (high - 1) % 2 == 1 && m == low * (high - 1)
  {
    assert low * (high - 1) == low * high - low;
  }

  lemma MaskBitsBounds(k: nat)
    requires 1 <= k <= 32
    ensures 0 < MaskBits(k) < Two32 && MaskBits(k) % Two32 == MaskBits(k)
  {
    Pow2ThirtyTwo();
    Pow2Increasing(32 - k, 32);
  }

  lemma Pow2Split(k: nat)
    requires k <= 32
    ensures Pow2(32) == Pow2(32 - k) * Pow2(k)
  {
    Pow2Add(32 - k, k);
  }

  /** The mask with k leading ones is 2^(32-k) times the odd number 2^k - 1. */
  lemma MaskBitsFactors(k: nat)
    requires 1 <= k <= 32
    ensures (Pow2(k) - 1) % 2 == 1
    ensures MaskBits(k) == Pow2(32 - k) * (Pow2(k) - 1)
  {
    Pow2Split(k);
    Pow2Even(k);
    OddFactor(MaskBits(k), Pow2(32), Pow2(32 - k), Pow2(k));
  }

  lemma MaskBitsTrailingZeros(k: nat)
    requires 1 <= k <= 32
    ensures MaskBits(k) != 0 && TrailingZeros(MaskBits(k)) == 32 - k
  {
    MaskBitsFactors(k);
    TrailingZerosOfShiftedOdd(32 - k, Pow2(k) - 1);
  }

  /** A contiguous mask with k leading ones (1 <= k <= 32) has prefix length k. */
  lemma ContiguousMaskCidr(k: nat)
    requires 1 <= k <= 32
    ensures 0 < MaskBits(k) < Two32
    ensures IpValue(LongToIp(MaskBits(k))) == Some(MaskBits(k))
    ensures Cidr(LongToIp(MaskBits(k))) == Some(k)
  {
    MaskBitsBounds(k);
    MaskBitsTrailingZeros(k);
    IpValueOfLongToIp(MaskBits(k));
  }

  /** `a & b` on Python integers (two's complement, unbounded). */
  function And(a: int, b: int): int
    decreases Abs(a) + Abs(b)
  {
    if a == 0 || b == 0 then 0
    else if a == -1 then b
    else if b == -1 then a
    else 2 * And(a / 2, b / 2) + (if a % 2 == 1 && b % 2 == 1 then 1 else 0)
  }

  lemma {:induction false} AndBounds(a: int, b: int)
    requires b >= 0
    ensures 0 <= And(a, b) <= b
    decreases Abs(a) + Abs(b)
  {
    if a != 0 && b != 0 {
      AndBounds(a / 2, b / 2);
    }
  }

  lemma {:induction false} BitOfZeroAndMinusOne(c: nat)
    ensures Bit(0, c) == 0 && Bit(-1, c) == 1
  {
    if c > 0 {
      BitOfZeroAndMinusOne(c - 1);
    }
  }

  /** `&` is bitwise: bit c of `a & b` is set exactly when bit c is set in both. */
  lemma {:induction false} AndBit(a: int, b: int, c: nat)
    ensures Bit(And(a, b), c) == Bit(a, c) * Bit(b, c)
    decreases c
  {
    BitOfZeroAndMinusOne(c);
    if a != 0 && b != 0 && a != -1 && b != -1 {
      var x := And(a / 2, b / 2);
      var low := if a % 2 == 1 && b % 2 == 1 then 1 else 0;
      assert (2 * x + low) / 2 == x && (2 * x + low) % 2 == low;
      if c > 0 {
        AndBit(a / 2, b / 2, c - 1);
      }
    }
  }

  lemma {:induction false} AndSelf(b: int)
    ensures And(b, b) == b
    decreases Abs(b)
  {
    if b != 0 && b != -1 {
      AndSelf(b / 2);
    }
  }

  lemma {:induction false} AndAllOnes(a: int, b: int)
    requires And(a, b) == -1
    ensures a == -1 && b == -1
    decreases Abs(a) + Abs(b)
  {
    if a != 0 && b != 0 && a != -1 && b != -1 {
      AndAllOnes(a / 2, b / 2);
    }
  }

  lemma {:induction false} AndIdempotent(a: int, b: int)
    ensures And(And(a, b), b) == And(a, b)
    decreases Abs(a) + Abs(b)
  {
    if a == -1 {
      AndSelf(b);
    } else if a != 0 && b != 0 && b != -1 {
      var x := And(a / 2, b / 2);
      var low := if a % 2 == 1 && b % 2 == 1 then 1 else 0;
      AndIdempotent(a / 2, b / 2);
      var y := 2 * x + low;
      assert y / 2 == x && y % 2 == low;
      if y == -1 {
        AndAllOnes(a, b);
      }
    }
  }

  /**
   * `network_addr`: the masked address and the prefix length, "a.b.c.d/k".
   * ValueError from either parse is None; a zero mask with a parsable
   * address would loop for ever in `subnet_to_cidr`.
   */
  function NetworkAddr(ip: string, subnet: string): (r: Option<string>)
    requires IpValue(ip).None? || IpValue(subnet) != Some(0)
    ensures r.Some? <==> IpValue(ip).Some? && IpValue(subnet).Some?
  {
    match (IpValue(ip), IpValue(subnet))
    case (Some(a), Some(m)) => Some(Network(a, m))
    case _ => None
  }

  /** The "a.b.c.d/k" text for address value `a` and mask value `m`. */
  function Network(a: int, m: int): string
    requires m != 0
  {
    LongToIp(And(a, m)) + "/" + IntToString(32 - TrailingZeros(m))
  }

  lemma AndWithin32(a: int, m: int)
    requires 0 < m < Two32
    ensures 0 <= And(a, m) < Two32 && And(a, m) % Two32 == And(a, m)
    ensures And(And(a, m), m) == And(a, m)
  {
    AndBounds(a, m);
    AndIdempotent(a, m);
  }

  /**
   * For any parsed address and a non-zero 32-bit mask, the network address
   * is the dotted form of `ip & mask`, and feeding it back with the same
   * mask gives the same string.
   */
  lemma NetworkAddrIdempotent(ip: string, subnet: string, a: int, m: int)
    requires IpValue(ip) == Some(a)
    requires IpValue(subnet) == Some(m) && 0 < m < Two32
    ensures NetworkAddr(ip, subnet) == Some(Network(a, m))
    ensures IpValue(LongToIp(And(a, m))) == Some(And(a, m))
    ensures NetworkAddr(LongToIp(And(a, m)), subnet) == NetworkAddr(ip, subnet)
  {
    AndWithin32(a, m);
    IpValueOfLongToIp(And(a, m));
  }
}
