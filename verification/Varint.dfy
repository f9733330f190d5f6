/**
  Base 128 varints: seven bits a byte, lowest group first, the top bit saying that more follow.
  A decoder reads at most ten bytes and keeps the low 64 bits.
  */
module Varint {
  import opened Basics

  type byte = x: int | 0 <= x < 256

  const U64: nat := 0x1_0000_0000_0000_0000
  const MAX_BYTES: nat := 10

  // What a parser returns: a value and the bytes after it.
  datatype Parsed<+T> = Parsed(value: T, rest: seq<byte>)

  function Encode(n: nat): seq<byte> {
    if n < 128 then [n] else [128 + n % 128] + Encode(n / 128)
  }

  // The number in at most `budget` bytes, before truncation to 64 bits.
  function Raw(b: seq<byte>, budget: nat): Option<Parsed<nat>>
    decreases |b|
  {
    if b == [] || budget == 0 then None
    else if b[0] < 128 then Some(Parsed(b[0], b[1..]))
    else
      match Raw(b[1..], budget - 1)
      case None => None
      case Some(high) => Some(Parsed(b[0] - 128 + 128 * high.value, high.rest))
  }

  function Decode(b: seq<byte>): Option<Parsed<nat>> {
    match Raw(b, MAX_BYTES)
    case None => None
    case Some(p) => Some(p.(value := p.value % U64))
  }

  // 128 to the k: one past the largest number k bytes can hold.
  function Capacity(k: nat): nat {
    if k == 0 then 1 else 128 * Capacity(k - 1)
  }

  // The size table: n takes k bytes exactly when it needs k groups of seven bits.
  lemma {:induction false} EncodedSize(n: nat)
    ensures var k := |Encode(n)|;
            k >= 1 && n < Capacity(k) && (k > 1 ==> Capacity(k - 1) <= n)
    decreases n
  {
    if n >= 128 {
      EncodedSize(n / 128);
      var k := |Encode(n)|;
      assert Capacity(k) == 128 * Capacity(k - 1);
      assert n == 128 * (n / 128) + n % 128;
      if k == 2 {
        assert Capacity(1) == 128 * Capacity(0);
      }
    }
  }

  lemma {:induction false} DivideTwice(n: nat, c: nat)
    requires c > 0
    ensures n / (128 * c) == n / 128 / c
  {
    var q := n / 128 / c;
    var low, rest := n % 128, n / 128 % c;
    assert n == 128 * (q * c + rest) + low;
    assert 128 * (q * c) == q * (128 * c);
    assert 0 <= 128 * rest + low < 128 * c;
    QuotientIs(n, 128 * c, q, 128 * rest + low);
  }

  lemma {:induction false} QuotientIs(n: nat, d: nat, q: nat, rest: nat)
    requires n == q * d + rest && rest < d
    ensures n / d == q
  {
    assert n == n / d * d + n % d;
    Multiples(n / d, q, d);
    Multiples(q, n / d, d);
  }

  lemma {:induction false} Multiples(a: nat, b: nat, d: nat)
    ensures a < b ==> a * d + d <= b * d
    decreases b
  {
    if a < b {
      Multiples(a, b - 1, d);
      assert b * d == (b - 1) * d + d;
    }
  }

  // Byte i carries bits 7i to 7i + 6 of the number; the top bit is set on every byte but the last.
  lemma {:induction false} EncodedBits(n: nat, i: nat)
    requires i < |Encode(n)|
    ensures Capacity(i) > 0
    ensures Encode(n)[i] % 128 == n / Capacity(i) % 128
    ensures Encode(n)[i] >= 128 <==> i < |Encode(n)| - 1
    decreases i
  {
    CapacityMonotone(0, i);
    if i > 0 {
      var j := i - 1;
      CapacityMonotone(0, j);
      EncodedBits(n / 128, j);
      DivideTwice(n, Capacity(j));
    } else if n >= 128 {
      EncodedSize(n / 128);
    }
  }

  lemma {:induction false} CapacityMonotone(j: nat, k: nat)
    requires j <= k
    ensures 1 <= Capacity(j) <= Capacity(k)
    decreases k
  {
    if j < k {
      CapacityMonotone(j, k - 1);
    } else if k > 0 {
      CapacityMonotone(k - 1, k - 1);
    }
  }

  // No 64-bit number takes more than ten bytes.
  lemma {:induction false} AtMostTenBytes(n: nat)
    requires n < U64
    ensures |Encode(n)| <= MAX_BYTES
  {
    EncodedSize(n);
    if |Encode(n)| > 10 {
      CapacityMonotone(10, |Encode(n)| - 1);
      CapacityTen();
    }
  }

  lemma {:induction false} CapacityTen()
    ensures Capacity(9) == 0x8000_0000_0000_0000 && Capacity(10) == 64 * U64
  {
    assert Capacity(3) == 0x20_0000;
    assert Capacity(6) == 0x400_0000_0000;
    assert Capacity(9) == 0x8000_0000_0000_0000;
  }

  lemma {:induction false} RawOfEncode(n: nat, rest: seq<byte>, budget: nat)
    requires |Encode(n)| <= budget
    ensures Raw(Encode(n) + rest, budget) == Some(Parsed(n, rest))
    decreases n
  {
    if n < 128 {
      assert ([n] + rest)[1..] == rest;
    } else {
      RawOfEncode(n / 128, rest, budget - 1);
      assert (Encode(n) + rest)[1..] == Encode(n / 128) + rest;
      assert n == 128 * (n / 128) + n % 128;
    }
  }

  // Decoding what was encoded gives the number back and consumes exactly its bytes.
  lemma {:induction false} RoundTrip(n: nat, rest: seq<byte>)
    requires n < U64
    ensures Decode(Encode(n) + rest) == Some(Parsed(n, rest))
  {
    AtMostTenBytes(n);
    RawOfEncode(n, rest, MAX_BYTES);
  }

  lemma {:induction false} RawBounds(b: seq<byte>, budget: nat)
    requires Raw(b, budget).Some?
    ensures var p := Raw(b, budget).value;
            |p.rest| < |b| && p.rest == b[|b| - |p.rest|..]
            && p.value < Capacity(|b| - |p.rest|) && |b| - |p.rest| <= budget
    decreases budget
  {
    if b[0] >= 128 {
      RawBounds(b[1..], budget - 1);
    } else {
      assert Capacity(1) == 128 * Capacity(0);
    }
  }

  // No other bytes say the same number in less space.
  lemma {:induction false} Shortest(b: seq<byte>)
    requires Decode(b).Some?
    ensures |Encode(Decode(b).value.value)| <= |b| - |Decode(b).value.rest| <= MAX_BYTES
  {
    RawBounds(b, MAX_BYTES);
    var n := Decode(b).value.value;
    var raw := Raw(b, MAX_BYTES).value.value;
    var used := |b| - |Decode(b).value.rest|;
    assert n <= raw;
    EncodedSize(n);
    if |Encode(n)| > used {
      CapacityMonotone(used, |Encode(n)| - 1);
    }
  }

  lemma {:induction false} RawAppend(b: seq<byte>, more: seq<byte>, budget: nat)
    requires Raw(b, budget).Some?
    ensures Raw(b + more, budget) == Some(Parsed(Raw(b, budget).value.value, Raw(b, budget).value.rest + more))
    decreases budget
  {
    assert (b + more)[1..] == b[1..] + more;
    if b[0] >= 128 {
      RawAppend(b[1..], more, budget - 1);
    }
  }

  // Bytes that follow do not change what was read.
  lemma {:induction false} DecodeAppend(b: seq<byte>, more: seq<byte>)
    requires Decode(b).Some?
    ensures Decode(b + more) == Some(Parsed(Decode(b).value.value, Decode(b).value.rest + more))
    ensures |Decode(b).value.rest| < |b|
  {
    RawBounds(b, MAX_BYTES);
    RawAppend(b, more, MAX_BYTES);
  }

  // ---- decoding any bytes ----

  // The number some groups of seven bits stand for, lowest group first.
  function Groups(b: seq<byte>): nat {
    if b == [] then 0 else Groups(b[..|b| - 1]) + b[|b| - 1] % 128 * Capacity(|b| - 1)
  }

  // The varint at the start of b ends with byte k.
  predicate EndsAt(b: seq<byte>, k: nat) {
    k < |b| && b[k] < 128 && forall i :: 0 <= i < k ==> b[i] >= 128
  }

  lemma {:induction false} GroupsCons(b: seq<byte>)
    requires b != []
    ensures Groups(b) == b[0] % 128 + 128 * Groups(b[1..])
    decreases |b|
  {
    var n := |b| - 1;
    if n == 0 {
      assert b[..0] == [] && b[1..] == [];
    } else {
      var rest := b[1..];
      GroupsCons(b[..n]);
      assert b[..n][1..] == rest[..n - 1];
      Regroup(Groups(rest[..n - 1]), b[n] % 128, Capacity(n - 1));
    }
  }

  lemma {:induction false} Regroup(sum: nat, digit: nat, place: nat)
    ensures 128 * (sum + digit * place) == 128 * sum + digit * (128 * place)
  {
  }

  lemma {:induction false} RawExactly(b: seq<byte>, budget: nat, k: nat)
    requires EndsAt(b, k)
    ensures Raw(b, budget) == if k < budget then Some(Parsed(Groups(b[..k + 1]), b[k + 1..])) else None
    decreases k
  {
    GroupsCons(b[..k + 1]);
    assert b[..k + 1][1..] == b[1..][..k];
    if k > 0 && budget > 0 {
      assert EndsAt(b[1..], k - 1);
      RawExactly(b[1..], budget - 1, k - 1);
      assert b[1..][k..] == b[k + 1..];
    }
  }

  lemma {:induction false} RawUnended(b: seq<byte>, budget: nat)
    requires forall i :: 0 <= i < |b| ==> b[i] >= 128
    ensures Raw(b, budget) == None
    decreases |b|
  {
    if b != [] && budget > 0 {
      RawUnended(b[1..], budget - 1);
    }
  }

  // For any bytes at all, minimal or not: the number is what its groups say, cut to 64 bits, if it ends
  // within ten bytes, and there is no number otherwise.
  lemma {:induction false} DecodesExactly(b: seq<byte>, k: nat)
    ensures EndsAt(b, k) && k < 10 ==> Decode(b) == Some(Parsed(Groups(b[..k + 1]) % U64, b[k + 1..]))
    ensures EndsAt(b, k) && k >= 10 ==> Decode(b) == None
    ensures (forall i :: 0 <= i < |b| ==> b[i] >= 128) ==> Decode(b) == None
  {
    if EndsAt(b, k) {
      RawExactly(b, MAX_BYTES, k);
    }
    if forall i :: 0 <= i < |b| ==> b[i] >= 128 {
      RawUnended(b, MAX_BYTES);
    }
  }

  // ---- the loop ----

  function Plus(value: nat, place: nat, digit: nat): nat {
    value + place * digit
  }

  // The number in hand so far, completed by what is still to be read at the given place.
  function Completed(value: nat, place: nat, high: Option<Parsed<nat>>): Option<Parsed<nat>> {
    match high
    case None => None
    case Some(p) => Some(Parsed(Plus(value, place, p.value), p.rest))
  }

  lemma {:induction false} TakeGroup(b: seq<byte>, budget: nat, value: nat, place: nat)
    requires b != [] && budget > 0 && b[0] >= 128
    ensures Completed(value, place, Raw(b, budget))
            == Completed(Plus(value, place, b[0] - 128), place * 128, Raw(b[1..], budget - 1))
  {
    var high := Raw(b[1..], budget - 1);
    if high.Some? {
      NextGroup(value, place, b[0] - 128, high.value.value);
    }
  }

  lemma {:induction false} NextGroup(value: nat, place: nat, low: nat, high: nat)
    ensures value + place * (low + 128 * high) == (value + place * low) + (place * 128) * high
  {
  }

  // The reading loop: accumulate seven bits at a time, low group first.
  method ReadRaw(b: seq<byte>, start: nat, budget: nat) returns (r: Option<nat>, next: nat)
    requires start <= |b|
    ensures next <= |b|
    ensures Raw(b[start..], budget) == if r.Some? then Some(Parsed(r.value, b[next..])) else None
  {
    var value: nat, place: nat, left: nat := 0, 1, budget;
    next := start;
    while left > 0 && next < |b|
      invariant left <= budget && next <= |b|
      invariant Completed(value, place, Raw(b[next..], left)) == Raw(b[start..], budget)
      decreases left
    {
      var digit := b[next];
      assert b[next..][1..] == b[next + 1..];
      if digit < 128 {
        next := next + 1;
        return Some(Plus(value, place, digit)), next;
      }
      TakeGroup(b[next..], left, value, place);
      value, place := Plus(value, place, digit - 128), place * 128;
      next, left := next + 1, left - 1;
    }
    r := None;
  }

  method ReadVarint(b: seq<byte>, start: nat) returns (r: Option<nat>, next: nat)
    requires start <= |b|
    ensures next <= |b|
    ensures Decode(b[start..]) == if r.Some? then Some(Parsed(r.value, b[next..])) else None
  {
    r, next := ReadRaw(b, start, MAX_BYTES);
    if r.Some? {
      r := Some(r.value % U64);
    }
  }
}
