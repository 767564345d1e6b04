/** The numbers of Android's public-key encoding: the modulus as 32-bit words, and the inverse
    its Montgomery reduction needs. */
module AdbKey {
  import opened Arithmetic
  import opened Bytes
  import opened Words

  const KEY_WORDS := 2048 / 32

  // ---------- the inverse of the low word ----------

  function WrappingMul(a: u32, b: u32): u32 { a * b % TWO_32 }

  function WrappingSub(a: u32, b: u32): u32 { (a - b) % TWO_32 }

  function WrappingNeg(a: u32): u32 { (0 - a) % TWO_32 }

  function Round(n: u32, inverse: u32): u32 {
    WrappingMul(inverse, WrappingSub(2, WrappingMul(n, inverse)))
  }

  /** The iteration after some rounds, from 1. */
  function Newton(n: u32, rounds: nat): u32 {
    if rounds == 0 then 1 else Round(n, Newton(n, rounds - 1))
  }

  /** `m` divides `a - b`. */
  predicate Congruent(a: int, b: int, m: nat)
    requires m > 0
  {
    (a - b) % m == 0
  }

  lemma CongruentByWitness(a: int, b: int, m: nat, k: int)
    requires m > 0 && a == b + m * k
    ensures Congruent(a, b, m)
  {
    Quotient(a - b, m, k, 0);
  }

  lemma Witness(a: int, b: int, m: nat) returns (k: int)
    requires m > 0 && Congruent(a, b, m)
    ensures a == b + m * k
  {
    k := (a - b) / m;
  }

  /** What a wrapped product leaves of the exact one. */
  lemma RoundWraps(n: u32, inverse: u32) returns (k: int)
    ensures Round(n, inverse) == inverse * (2 - n * inverse) + TWO_32 * k
  {
    var product := n * inverse;
    var wrapped := WrappingMul(n, inverse);
    var difference := WrappingSub(2, wrapped);
    var a, b := product / TWO_32, (2 - wrapped) / TWO_32;
    assert product == TWO_32 * a + wrapped;
    assert 2 - wrapped == TWO_32 * b + difference;
    var whole: int := inverse * difference;
    var c := whole / TWO_32;
    assert whole == TWO_32 * c + Round(n, inverse);
    Expand(inverse, product, a, b, wrapped, difference);
    k := inverse * (a - b) - c;
    assert TWO_32 * k == TWO_32 * (inverse * (a - b)) - TWO_32 * c;
  }

  lemma Expand(inverse: int, product: int, a: int, b: int, wrapped: int, difference: int)
    requires product == TWO_32 * a + wrapped && 2 - wrapped == TWO_32 * b + difference
    ensures inverse * difference == inverse * (2 - product) + TWO_32 * (inverse * (a - b))
  {
    assert difference == (2 - product) + TWO_32 * (a - b);
    Distribute(inverse, 2 - product, a - b);
  }

  lemma Distribute(x: int, y: int, z: int)
    ensures x * (y + TWO_32 * z) == x * y + TWO_32 * (x * z)
  {
  }

  /** A round squares the modulus up to which the inverse is right. */
  lemma RoundDoubles(n: u32, inverse: u32, m: nat, cofactor: nat)
    requires m > 0 && m * m * cofactor == TWO_32 && Congruent(n * inverse, 1, m)
    ensures m * m > 0 && Congruent(n * Round(n, inverse), 1, m * m)
  {
    var t := Witness(n * inverse, 1, m);
    var k := RoundWraps(n, inverse);
    var square := m * m;
    var p := n * inverse;
    Squares(p, m, t);
    assert p * (2 - p) == 1 - square * (t * t);
    TimesN(n, inverse, p, k);
    assert n * Round(n, inverse) == p * (2 - p) + TWO_32 * (n * k);
    Regroup(square, cofactor, n * k);
    CongruentByWitness(n * Round(n, inverse), 1, square, cofactor * (n * k) - t * t);
  }

  lemma Squares(p: int, m: int, t: int)
    requires p == 1 + m * t
    ensures p * (2 - p) == 1 - m * m * (t * t)
  {
    var e := m * t;
    assert p * (2 - p) == (1 + e) * (1 - e) == 1 - e * e;
    assert e * e == m * t * (m * t) == m * m * (t * t);
  }

  lemma TimesN(n: int, inverse: int, p: int, k: int)
    requires p == n * inverse
    ensures n * (inverse * (2 - p) + TWO_32 * k) == p * (2 - p) + TWO_32 * (n * k)
  {
    assert n * (inverse * (2 - p)) == n * inverse * (2 - p);
    Distribute(n, inverse * (2 - p), k);
  }

  lemma Regroup(square: int, cofactor: int, x: int)
    requires square * cofactor == TWO_32
    ensures TWO_32 * x == square * (cofactor * x)
  {
  }

  /** After `k` rounds from 1, the inverse of an odd number is right modulo 2^(2^k), up to the 32
      bits of the word. */
  lemma {:induction false} NewtonDoubles(n: u32, k: nat)
    requires n % 2 == 1 && k <= 5
    ensures Congruent(n * Newton(n, k), 1, Pow2(Pow2(k)))
    decreases k
  {
    hide Round, Congruent, Pow2;
    if k == 0 {
      PowersUpTo32();
      OddIsOne(n);
    } else {
      NewtonDoubles(n, k - 1);
      var cofactor := Cofactor(k);
      RoundDoubles(n, Newton(n, k - 1), Pow2(Pow2(k - 1)), cofactor);
    }
  }

  /** Squaring the modulus of a round gives the next one, which divides 2^32. */
  lemma Cofactor(k: nat) returns (cofactor: nat)
    requires 1 <= k <= 5
    ensures var m := Pow2(Pow2(k - 1)); m * m == Pow2(Pow2(k)) && m * m * cofactor == TWO_32
  {
    PowersUpTo32();
    hide Pow2;
    cofactor := match k
      case 1 => 0x4000_0000
      case 2 => 0x1000_0000
      case 3 => 0x100_0000
      case 4 => 0x1_0000
      case _ => 1;
  }

  lemma OddIsOne(n: u32)
    requires n % 2 == 1
    ensures Congruent(n * 1, 1, 2)
  {
  }

  lemma PowersUpTo32()
    ensures Pow2(Pow2(0)) == 2 && Pow2(Pow2(1)) == 4 && Pow2(Pow2(2)) == 0x10 && Pow2(Pow2(3)) == 0x100
    ensures Pow2(Pow2(4)) == 0x1_0000 && Pow2(Pow2(5)) == TWO_32
  {
    assert Pow2(0) == 1 && Pow2(1) == 2 && Pow2(2) == 4 && Pow2(3) == 8 && Pow2(4) == 16 && Pow2(5) == 32;
    assert Pow2(16) == 0x1_0000;
    assert Pow2(24) == 0x100_0000;
    assert Pow2(32) == TWO_32;
  }

  /** n · n0inv ≡ −1 modulo 2^32, exactly for the odd moduli, as RSA ones are. */
  method NegativeInverse(n0: u32) returns (n0inv: u32)
    ensures n0inv == WrappingNeg(Newton(n0, 5))
    ensures n0 % 2 == 1 <==> Congruent(n0 * n0inv, -1, TWO_32)
  {
    hide Round, Newton, Congruent;
    var inverse: u32 := 1;
    NewtonSteps(n0, 0);
    for i := 0 to 5
      invariant inverse == Newton(n0, i)
    {
      NewtonSteps(n0, i);
      inverse := Round(n0, inverse);
    }
    n0inv := WrappingNeg(inverse);
    if n0 % 2 == 1 {
      PowersUpTo32();
      NewtonDoubles(n0, 5);
      Negated(n0, inverse);
    } else {
      EvenHasNone(n0, n0inv);
    }
  }

  lemma NewtonSteps(n: u32, k: nat)
    ensures Newton(n, 0) == 1 && Newton(n, k + 1) == Round(n, Newton(n, k))
  {
  }

  lemma Negated(n: u32, inverse: u32)
    requires Congruent(n * inverse, 1, TWO_32)
    ensures Congruent(n * WrappingNeg(inverse), -1, TWO_32)
  {
    var t := Witness(n * inverse, 1, TWO_32);
    var negative := WrappingNeg(inverse);
    var j := (0 - inverse) / TWO_32;
    assert negative == (0 - inverse) - TWO_32 * j;
    Distribute(n, 0 - inverse, -j);
    assert n * (0 - inverse) == 0 - n * inverse && n * (-j) == -(n * j);
    CongruentByWitness(n * negative, -1, TWO_32, -t - n * j);
  }

  lemma EvenHasNone(n: u32, x: u32)
    requires n % 2 == 0
    ensures !Congruent(n * x, -1, TWO_32)
  {
    var half := n / 2 * x;
    assert n * x == 2 * half;
    assert (2 * half + 1) % TWO_32 != 0;
  }

  // ---------- the modulus as words ----------

  /** The number little-endian bytes write. */
  function Number(bytes: seq<byte>): nat {
    if bytes == [] then 0 else bytes[0] + 0x100 * Number(bytes[1..])
  }

  function WordsNumber(words: seq<u32>): nat {
    if words == [] then 0 else words[0] + TWO_32 * WordsNumber(words[1..])
  }

  /** A byte of the number, zero past its end. */
  function Padded(bytes: seq<byte>, i: nat): byte {
    if i < |bytes| then bytes[i] else 0
  }

  /** What is left of the bytes from an index. */
  function From(bytes: seq<byte>, i: nat): seq<byte> {
    if i <= |bytes| then bytes[i..] else []
  }

  function WordAt(bytes: seq<byte>, i: nat): u32 {
    FromLe32([Padded(bytes, 4 * i), Padded(bytes, 4 * i + 1), Padded(bytes, 4 * i + 2), Padded(bytes, 4 * i + 3)])
  }

  /** One chunk of four bytes at most, copied over four zeros. */
  method ChunkWord(bytes: seq<byte>, i: nat) returns (word: u32)
    ensures word == WordAt(bytes, i)
  {
    var chunk := new byte[4](_ => 0);
    var j := 0;
    while j < 4 && 4 * i + j < |bytes|
      invariant 0 <= j <= 4
      invariant forall k :: 0 <= k < 4 ==> chunk[k] == if k < j then Padded(bytes, 4 * i + k) else 0
    {
      chunk[j] := bytes[4 * i + j];
      j := j + 1;
    }
    assert chunk[..] == [Padded(bytes, 4 * i), Padded(bytes, 4 * i + 1),
                         Padded(bytes, 4 * i + 2), Padded(bytes, 4 * i + 3)];
    word := FromLe32(chunk[..]);
  }

  /** Chunks of four bytes into a fixed number of words: the last chunk is padded, the words past
      it are zero, and bytes past the words are dropped. */
  method ToWords(bytes: seq<byte>) returns (words: array<u32>)
    ensures fresh(words) && words.Length == KEY_WORDS
    ensures forall i :: 0 <= i < KEY_WORDS ==> words[i] == WordAt(bytes, i)
  {
    hide FromLe32;
    words := new u32[KEY_WORDS](_ => 0);
    var index := 0;
    while index < KEY_WORDS && 4 * index < |bytes|
      invariant 0 <= index <= KEY_WORDS
      invariant forall i :: 0 <= i < index ==> words[i] == WordAt(bytes, i)
      invariant forall i :: index <= i < KEY_WORDS ==> words[i] == 0
    {
      words[index] := ChunkWord(bytes, index);
      index := index + 1;
    }
    forall i | index <= i < KEY_WORDS
      ensures WordAt(bytes, i) == 0
    {
      NoWord();
    }
  }

  lemma NoWord()
    ensures FromLe32([0, 0, 0, 0]) == 0
  {
  }

  lemma OneByte(bytes: seq<byte>, i: nat)
    ensures Number(From(bytes, i)) == Padded(bytes, i) as int + 0x100 * Number(From(bytes, i + 1))
  {
    if i < |bytes| {
      assert bytes[i..][1..] == bytes[i + 1..];
    }
  }

  /** Four bytes of a number, then the rest of it. */
  lemma FourBytes(bytes: seq<byte>, i: nat)
    ensures Number(From(bytes, 4 * i)) == WordAt(bytes, i) as int + TWO_32 * Number(From(bytes, 4 * (i + 1)))
  {
    hide Number, From, Padded;
    OneByte(bytes, 4 * i);
    OneByte(bytes, 4 * i + 1);
    OneByte(bytes, 4 * i + 2);
    OneByte(bytes, 4 * i + 3);
  }

  /** The words from an index on write the number that is left there. */
  lemma {:induction false} WordsAreTheBytes(words: seq<u32>, bytes: seq<byte>, index: nat)
    requires |bytes| <= 4 * (|words| + index)
    requires forall i :: 0 <= i < |words| ==> words[i] == WordAt(bytes, index + i)
    ensures WordsNumber(words) == Number(From(bytes, 4 * index))
    decreases |words|
  {
    hide WordAt;
    if words != [] {
      FourBytes(bytes, index);
      WordsAreTheBytes(words[1..], bytes, index + 1);
    }
  }

  /** The words of a modulus of at most 2048 bits are its number, and the word computed from the
      lowest of them is the negative inverse of the whole modulus, exactly when that is odd. */
  method ModulusWords(modulus: seq<byte>) returns (words: array<u32>, n0inv: u32)
    requires |modulus| <= 4 * KEY_WORDS
    ensures fresh(words) && words.Length == 64 && WordsNumber(words[..]) == Number(modulus)
    ensures Number(modulus) % 2 == 1 <==> Congruent(Number(modulus) * n0inv, -1, TWO_32)
  {
    words := ToWords(modulus);
    WordsAreTheBytes(words[..], modulus, 0);
    assert From(modulus, 0) == modulus;
    n0inv := NegativeInverse(words[0]);
    LowWordDecides(words[..], n0inv);
  }

  lemma LowWordDecides(words: seq<u32>, x: u32)
    requires words != []
    ensures WordsNumber(words) % 2 == words[0] % 2
    ensures Congruent(WordsNumber(words) * x, -1, TWO_32) <==> Congruent(words[0] * x, -1, TWO_32)
  {
    hide Congruent;
    LowPartDecides(words[0], WordsNumber(words[1..]), x);
  }

  lemma LowPartDecides(low: int, high: int, x: int)
    ensures (low + TWO_32 * high) % 2 == low % 2
    ensures Congruent((low + TWO_32 * high) * x, -1, TWO_32) <==> Congruent(low * x, -1, TWO_32)
  {
    hide Congruent;
    DistributeRight(low, high, x);
    MultiplesDoNotMatter(low * x, high * x);
  }

  lemma DistributeRight(low: int, high: int, x: int)
    ensures (low + TWO_32 * high) * x == low * x + TWO_32 * (high * x)
  {
  }

  lemma MultiplesDoNotMatter(a: int, k: int)
    ensures Congruent(a + TWO_32 * k, -1, TWO_32) <==> Congruent(a, -1, TWO_32)
  {
  }
}
