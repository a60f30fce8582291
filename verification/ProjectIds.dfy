/** The project id allocator: 32-bit FNV-1a of the fork key, kept clear of the reserved ids 0 and 1. */
module ProjectIds {
  import opened Bytes

  const OFFSET_BASIS: u32 := 2166136261
  const PRIME := 16777619

  /** The inverse of `PRIME` modulo 2^32. */
  const INVERSE := 899433627

  type u32 = x: int | 0 <= x < 0x1_0000_0000

  /** Wrapping multiplication of 32-bit words. */
  function WrappingMul(h: u32, c: u32): u32 {
    (h * c) % 0x1_0000_0000
  }

  function Xor(h: u32, b: u32): u32 {
    XorFits(h, b);
    BitXor(h, b)
  }

  function Step(h: u32, b: byte): u32 {
    WrappingMul(Xor(h, b), PRIME)
  }

  function Unstep(h: u32, b: byte): u32 {
    Xor(WrappingMul(h, INVERSE), b)
  }

  function Fold(h: u32, bytes: seq<byte>): u32 {
    if bytes == [] then h else Step(Fold(h, bytes[..|bytes| - 1]), bytes[|bytes| - 1])
  }

  function Unfold(h: u32, bytes: seq<byte>): u32
    decreases |bytes|
  {
    if bytes == [] then h else Unfold(Unstep(h, bytes[|bytes| - 1]), bytes[..|bytes| - 1])
  }

  function RawHash(key: seq<byte>): u32 {
    Fold(OFFSET_BASIS, key)
  }

  function Clamp(h: u32): u32 {
    if h < 2 then 2 else h
  }

  method AllocProjectId(key: seq<byte>) returns (id: u32)
    ensures id == if RawHash(key) < 2 then 2 else RawHash(key)
    ensures id >= 2
  {
    hide Xor, WrappingMul;
    var hash := OFFSET_BASIS;
    for i := 0 to |key|
      invariant hash == Fold(OFFSET_BASIS, key[..i])
    {
      assert key[..i + 1][..i] == key[..i];
      hash := Xor(hash, key[i]);
      hash := WrappingMul(hash, PRIME);
    }
    assert key[..|key|] == key;
    id := Clamp(hash);
  }

  lemma XorFits(h: u32, b: u32)
    ensures BitXor(h, b) < 0x1_0000_0000
  {
    Pow2At32();
    BitXorBelow(h, b, 32);
  }

  lemma NegativeMultiple(t: int, m: nat)
    ensures t < 0 ==> t * m + m <= 0
  {
    if t < 0 {
      MulAtLeast(-t, m);
    }
  }

  /** Wrapping multiplication by factors whose product is 1 modulo 2^32 is undone. */
  lemma MulInverts(h: u32, c: u32, d: u32, k: nat)
    requires c * d == 1 + k * 0x1_0000_0000
    ensures WrappingMul(WrappingMul(h, c), d) == h
  {
    var m := 0x1_0000_0000;
    var q, r := (h * c) / m, (h * c) % m;
    assert h * c == q * m + r;
    calc {
      r * d;
      (h * c - q * m) * d;
      h * (c * d) - q * m * d;
      h * (1 + k * m) - q * m * d;
      h + (h * k - q * d) * m;
    }
    var t := h * k - q * d;
    NegativeMultiple(t, m);
    DivModUnique(r * d, m, t, h);
  }

  lemma PrimeInverts(h: u32)
    ensures WrappingMul(WrappingMul(h, PRIME), INVERSE) == h
    ensures WrappingMul(WrappingMul(h, INVERSE), PRIME) == h
  {
    hide WrappingMul;
    assert PRIME * INVERSE == 1 + 3513497 * 0x1_0000_0000;
    MulInverts(h, PRIME, INVERSE, 3513497);
    MulInverts(h, INVERSE, PRIME, 3513497);
  }

  /** Hashing a byte is a bijection on states, for every byte. */
  lemma StepInverts(h: u32, b: byte)
    ensures Unstep(Step(h, b), b) == h
    ensures Step(Unstep(h, b), b) == h
  {
    hide WrappingMul;
    PrimeInverts(Xor(h, b));
    BitXorInverts(h, b);
    BitXorInverts(WrappingMul(h, INVERSE), b);
    PrimeInverts(h);
  }

  /** Hashing a fixed suffix is a bijection on states. */
  lemma {:induction false} FoldInverts(h: u32, bytes: seq<byte>)
    ensures Unfold(Fold(h, bytes), bytes) == h
    ensures Fold(Unfold(h, bytes), bytes) == h
    decreases |bytes|
  {
    hide Step, Unstep;
    if bytes != [] {
      var init, last := bytes[..|bytes| - 1], bytes[|bytes| - 1];
      StepInverts(Fold(h, init), last);
      StepInverts(h, last);
      FoldInverts(h, init);
      FoldInverts(Unstep(h, last), init);
    }
  }

  lemma {:induction false} FoldConcat(h: u32, a: seq<byte>, b: seq<byte>)
    ensures Fold(h, a + b) == Fold(Fold(h, a), b)
    decreases |b|
  {
    hide Step;
    if b == [] {
      assert a + b == a;
    } else {
      assert (a + b)[..|a + b| - 1] == a + b[..|b| - 1];
      FoldConcat(h, a, b[..|b| - 1]);
    }
  }

  /** Two keys that end alike share a hash exactly when what comes before does. */
  lemma SuffixPreservesCollisions(a: seq<byte>, b: seq<byte>, suffix: seq<byte>)
    ensures RawHash(a + suffix) == RawHash(b + suffix) <==> RawHash(a) == RawHash(b)
  {
    FoldConcat(OFFSET_BASIS, a, suffix);
    FoldConcat(OFFSET_BASIS, b, suffix);
    FoldInverts(RawHash(a), suffix);
    FoldInverts(RawHash(b), suffix);
  }

  lemma StepSeparates(h: u32, x: byte, y: byte)
    requires x != y
    ensures Step(h, x) != Step(h, y)
  {
    hide WrappingMul;
    PrimeInverts(Xor(h, x));
    PrimeInverts(Xor(h, y));
    BitXorCommutes(h, x);
    BitXorCommutes(h, y);
    BitXorInverts(x, h);
    BitXorInverts(y, h);
  }

  lemma SingleByte(h: u32, x: byte)
    ensures Fold(h, [x]) == Step(h, x)
  {
    hide Step;
    assert [x][..0] == [];
  }

  /** Keys of one length that differ in exactly one byte never share a raw hash. */
  lemma OneByteApart(a: seq<byte>, b: seq<byte>, at: nat)
    requires |a| == |b| && at < |a| && a[at] != b[at]
    requires forall i | 0 <= i < |a| && i != at :: a[i] == b[i]
    ensures RawHash(a) != RawHash(b)
  {
    hide Step, Fold;
    var prefix, suffix := a[..at], a[at + 1..];
    assert a == (prefix + [a[at]]) + suffix;
    assert b == (prefix + [b[at]]) + suffix;
    FoldConcat(OFFSET_BASIS, prefix, [a[at]]);
    FoldConcat(OFFSET_BASIS, prefix, [b[at]]);
    SingleByte(RawHash(prefix), a[at]);
    SingleByte(RawHash(prefix), b[at]);
    StepSeparates(RawHash(prefix), a[at], b[at]);
    SuffixPreservesCollisions(prefix + [a[at]], prefix + [b[at]], suffix);
  }

  /** So their ids are the same exactly when the clamp meets both: two raw hashes of at most 2. */
  lemma IdsOneByteApart(a: seq<byte>, b: seq<byte>, at: nat)
    requires |a| == |b| && at < |a| && a[at] != b[at]
    requires forall i | 0 <= i < |a| && i != at :: a[i] == b[i]
    ensures Clamp(RawHash(a)) == Clamp(RawHash(b)) <==> RawHash(a) <= 2 && RawHash(b) <= 2
  {
    OneByteApart(a, b, at);
  }

  /** For a fixed key the hash is a permutation of the starting states: each result has exactly one start. */
  lemma EveryHashHasOneStart(h: u32, key: seq<byte>)
    ensures exists start :: Fold(start, key) == h
    ensures forall s, t :: Fold(s, key) == h && Fold(t, key) == h ==> s == t
  {
    FoldInverts(h, key);
    assert Fold(Unfold(h, key), key) == h;
    forall s, t | Fold(s, key) == h && Fold(t, key) == h ensures s == t {
      FoldInverts(s, key);
      FoldInverts(t, key);
    }
  }

  /** The hashes of the empty key and of "a" are the values published with FNV-1a. */
  lemma KnownVectors()
    ensures RawHash([]) == 0x811C_9DC5
    ensures RawHash([97]) == 0xE40C_292C
  {
    hide Fold, WrappingMul;
    SingleByte(OFFSET_BASIS, 97);
    FoldNothing(OFFSET_BASIS);
    XorOfA();
    assert WrappingMul(2166136228, PRIME) == 0xE40C_292C by {
      ProductOfA();
    }
  }

  lemma FoldNothing(h: u32)
    ensures Fold(h, []) == h
  {
  }

  lemma ProductOfA()
    ensures WrappingMul(2166136228, PRIME) == 0xE40C_292C
  {
  }

  lemma XorOfA()
    ensures Xor(OFFSET_BASIS, 97) == 2166136228
  {
    BitXorZero(16922939);
    assert BitXor(33845879, 1) == 33845878;
    assert BitXor(67691758, 3) == 67691757;
    assert BitXor(135383516, 6) == 135383514;
    assert BitXor(270767032, 12) == 270767028;
    assert BitXor(541534065, 24) == 541534057;
    assert BitXor(1083068130, 48) == 1083068114;
    assert Xor(OFFSET_BASIS, 97) == 2166136228;
  }
}
