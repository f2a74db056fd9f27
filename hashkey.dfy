/**
 * Hash keys of the three hashable object kinds. A key is the object's type
 * tag and a 64-bit value: 0 or 1 for a Boolean, the integer's two's
 * complement bits for an Integer, and the 64-bit FNV-1a hash of the UTF-8
 * bytes for a String (draft-eastlake-fnv, section 2, "FNV Basics").
 */
module HashKeys {
  import opened GoInt
  import opened Objects
  import Text

  const FNV_OFFSET_BASIS: bv64 := 14695981039346656037
  const FNV_PRIME: bv64 := 1099511628211

  /** One FNV-1a round: xor in an octet, then multiply by the prime modulo 2^64. */
  function Mix(h: bv64, b: bv8): bv64
  {
    (h ^ (b as bv64)) * FNV_PRIME
  }

  /** FNV-1a over a byte string: one round per octet, from the offset basis. */
  function Fnv1a(bs: seq<bv8>): bv64
  {
    if bs == [] then FNV_OFFSET_BASIS
    else Mix(Fnv1a(bs[..|bs| - 1]), bs[|bs| - 1])
  }

  /** Hashing is a left fold: appending one octet is one more round. */
  lemma Fnv1aStep(bs: seq<bv8>, b: bv8)
    ensures Fnv1a(bs + [b]) == Mix(Fnv1a(bs), b)
  {
    assert (bs + [b])[..|bs + [b]| - 1] == bs;
  }

  /** `Boolean.HashKey()`. */
  function BooleanKey(b: bool): (k: HashKey)
    ensures k.kind == BooleanObj && TypeName(k.kind) == "BOOLEAN"
    ensures k.value == if b then 1 else 0
  {
    HashKey(Type(Boolean(b)), if b then 1 else 0)
  }

  /** `Integer.HashKey()`: the int64 reinterpreted as uint64. */
  function IntegerKey(i: Int64): (k: HashKey)
    ensures k.kind == IntegerObj
    ensures 0 <= i ==> k.value == i
    ensures i < 0 ==> k.value == i + TWO_64
  {
    HashKey(Type(Integer(i)), AsUint64(i))
  }

  /** FNV-1a rounds over bs starting from the running hash h, as further `Write`s would do. */
  function Rounds(h: bv64, bs: seq<bv8>): bv64
  {
    if bs == [] then h
    else Mix(Rounds(h, bs[..|bs| - 1]), bs[|bs| - 1])
  }

  /** Hashing a + b is hashing a, then going on over b. */
  lemma {:induction false} Fnv1aConcat(a: seq<bv8>, b: seq<bv8>)
    ensures Fnv1a(a + b) == Rounds(Fnv1a(a), b)
    decreases |b|
  {
    if b == [] {
      assert a + b == a;
    } else {
      var front := b[..|b| - 1];
      assert (a + b)[..|a + b| - 1] == a + front;
      assert (a + b)[|a + b| - 1] == b[|b| - 1];
      Fnv1aConcat(a, front);
    }
  }

  /** `String.HashKey()`: FNV-1a over the UTF-8 bytes. */
  function StringKey(s: string): (k: HashKey)
    ensures k.kind == StringObj
    ensures k.value == Fnv1a(Text.Utf8(s)) as int
  {
    HashKey(Type(Str(s)), Fnv1a(Text.Utf8(s)) as int)
  }

  /** The key of s + t continues the hash of s over the bytes of t. */
  lemma StringKeyConcat(s: string, t: string)
    ensures StringKey(s + t).value == Rounds(Fnv1a(Text.Utf8(s)), Text.Utf8(t)) as int
  {
    Text.Utf8Concat(s, t);
    Fnv1aConcat(Text.Utf8(s), Text.Utf8(t));
  }

  /** Distinct integers get distinct keys. */
  lemma IntegerKeyInjective(i: Int64, j: Int64)
    ensures IntegerKey(i) == IntegerKey(j) <==> i == j
  {
    if IntegerKey(i) == IntegerKey(j) {
      AsUint64Injective(i, j);
    }
  }

  /** Keys compare on the tag too: no Integer key equals a Boolean or String key. */
  lemma KeysSeparateKinds(i: Int64, b: bool, s: string)
    ensures IntegerKey(i) != BooleanKey(b)
    ensures IntegerKey(i) != StringKey(s)
    ensures BooleanKey(b) != StringKey(s)
    ensures IntegerKey(1) != BooleanKey(true)
  {
  }

  /** The empty string hashes to the offset basis. */
  lemma EmptyStringKey()
    ensures StringKey("").value == 14695981039346656037
  {
  }

  lemma HelloRounds()
    ensures Mix(FNV_OFFSET_BASIS, 72) == 0xaf64054c86023237
    ensures Mix(0xaf64054c86023237, 101) == 0x09275307b5bb8156
    ensures Mix(0x09275307b5bb8156, 108) == 0x49535019cd9c958e
    ensures Mix(0x49535019cd9c958e, 108) == 0x3526fdd86112af06
    ensures Mix(0x3526fdd86112af06, 111) == 0x63f0bfacf2c00f6b
  {
  }

  lemma AbcdRounds()
    ensures Mix(FNV_OFFSET_BASIS, 97) == 0xaf63dc4c8601ec8c
    ensures Mix(0xaf63dc4c8601ec8c, 98) == 0x089c4407b545986a
    ensures Mix(0x089c4407b545986a, 99) == 0xe71fa2190541574b
    ensures Mix(0xe71fa2190541574b, 100) == 0xfc179f83ee0724dd
  {
  }

  lemma HelloHash()
    ensures Fnv1a([72, 101, 108, 108, 111]) == 0x63f0bfacf2c00f6b
  {
    HelloRounds();
    var s1: seq<bv8> := [72];
    var s2 := s1 + [101];
    var s3 := s2 + [108];
    var s4 := s3 + [108];
    var s5 := s4 + [111];
    assert s1[..0] == [];
    assert Fnv1a(s1) == 0xaf64054c86023237;
    assert s2[..1] == s1;
    assert Fnv1a(s2) == 0x09275307b5bb8156;
    assert s3[..2] == s2;
    assert Fnv1a(s3) == 0x49535019cd9c958e;
    assert s4[..3] == s3;
    assert Fnv1a(s4) == 0x3526fdd86112af06;
    assert s5[..4] == s4;
    assert s5 == [72, 101, 108, 108, 111];
  }

  lemma AbcdHash()
    ensures Fnv1a([97, 98, 99, 100]) == 0xfc179f83ee0724dd
  {
    AbcdRounds();
    var s1: seq<bv8> := [97];
    var s2 := s1 + [98];
    var s3 := s2 + [99];
    var s4 := s3 + [100];
    assert s1[..0] == [];
    assert Fnv1a(s1) == 0xaf63dc4c8601ec8c;
    assert s2[..1] == s1;
    assert Fnv1a(s2) == 0x089c4407b545986a;
    assert s3[..2] == s2;
    assert Fnv1a(s3) == 0xe71fa2190541574b;
    assert s4[..3] == s3;
    assert s4 == [97, 98, 99, 100];
  }

  lemma HelloBytes()
    ensures Text.Utf8("Hello") == [72, 101, 108, 108, 111]
  {
    assert "Hello"[1..] == "ello" && "ello"[1..] == "llo" && "llo"[1..] == "lo" && "lo"[1..] == "o" && "o"[1..] == "";
  }

  lemma AbcdBytes()
    ensures Text.Utf8("abcd") == [97, 98, 99, 100]
  {
    assert "abcd"[1..] == "bcd" && "bcd"[1..] == "cd" && "cd"[1..] == "d" && "d"[1..] == "";
  }

  /** `"Hello"` and `"abcd"` are filed under different keys. */
  lemma HelloAbcdDiffer()
    ensures StringKey("Hello").value == 0x63f0bfacf2c00f6b
    ensures StringKey("abcd").value == 0xfc179f83ee0724dd
    ensures StringKey("Hello") != StringKey("abcd")
  {
    HelloBytes();
    AbcdBytes();
    HelloHash();
    AbcdHash();
  }
}
