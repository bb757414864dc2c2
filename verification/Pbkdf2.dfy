/** `pbkdf2Key` against section 5.2 of RFC 8018, for an arbitrary pseudorandom function. */
module Pbkdf2 {
  import opened Blocks

  type Octet = x: int | 0 <= x < 256

  type Octets = seq<Octet>

  /** A keyed pseudorandom function, first the key and then the message. */
  type Prf = (Octets, Octets) -> Octets

  ghost predicate FixedLength(prf: Prf, hLen: nat) {
    hLen > 0 && forall key: Octets, text: Octets :: |prf(key, text)| == hLen
  }

  // ---------------------------------------------------------------- section 5.2 of RFC 8018

  /** INT (i): the four-octet encoding of i, most significant octet first.  The code stores a uint32,
      so an index beyond the RFC's limit wraps. */
  function Int4(i: nat): Octets {
    var w := i % TWO_32;
    [w / 256 / 256 / 256, w / 256 / 256 % 256, w / 256 % 256, w % 256]
  }

  /** U_c for block i. */
  ghost function U(prf: Prf, password: Octets, salt: Octets, i: nat, c: nat): Octets
    requires c >= 1
  {
    if c == 1 then prf(password, salt + Int4(i)) else prf(password, U(prf, password, salt, i, c - 1))
  }

  function XorOctet(a: Octet, b: Octet): Octet {
    ((a as bv8) ^ (b as bv8)) as int
  }

  function Xor(a: Octets, b: Octets): Octets
    requires |a| == |b|
  {
    seq(|a|, j requires 0 <= j < |a| => XorOctet(a[j], b[j]))
  }

  /** F (P, S, c, i) = U_1 \xor U_2 \xor ... \xor U_c */
  ghost function F(prf: Prf, hLen: nat, password: Octets, salt: Octets, c: nat, i: nat): (t: Octets)
    requires FixedLength(prf, hLen) && c >= 1
    ensures |t| == hLen
  {
    if c == 1 then U(prf, password, salt, i, 1)
    else Xor(F(prf, hLen, password, salt, c - 1, i), U(prf, password, salt, i, c))
  }

  /** DK = T_1 || T_2 || ... || T_l<0..r-1>: octet k of the key is octet k mod hLen of T_(k div hLen + 1). */
  ghost function DK(prf: Prf, hLen: nat, password: Octets, salt: Octets, c: nat, dkLen: nat): Octets
    requires FixedLength(prf, hLen) && c >= 1
  {
    seq(dkLen, k requires 0 <= k < dkLen => F(prf, hLen, password, salt, c, k / hLen + 1)[k % hLen])
  }

  function Value(o: seq<int>): int {
    if o == [] then 0 else 256 * Value(o[..|o| - 1]) + o[|o| - 1]
  }

  lemma ValueOfFour(a: int, b: int, c: int, d: int)
    ensures Value([a, b, c, d]) == 256 * (256 * (256 * a + b) + c) + d
  {
    assert [a, b, c, d][..3] == [a, b, c] && [a, b, c][..2] == [a, b] && [a, b][..1] == [a] && [a][..0] == [];
    assert Value([a]) == a && Value([a, b]) == 256 * a + b;
  }

  lemma Carry(i: nat)
    ensures 256 * (i / 256) + i % 256 == i
  {
  }

  /** The octets encode the block index itself up to the RFC's limit of 2^32 - 1 blocks. */
  lemma Int4Value(i: nat)
    requires i < TWO_32
    ensures Value(Int4(i)) == i
  {
    var x := i / 256;
    var y := x / 256;
    var z := y / 256;
    assert i % TWO_32 == i;
    assert Int4(i) == [z, y % 256, x % 256, i % 256];
    ValueOfFour(z, y % 256, x % 256, i % 256);
    Carry(i);
    Carry(x);
    Carry(y);
  }

  // ---------------------------------------------------------------- the code

  lemma EnoughBlocks(keyLen: nat, h: nat)
    requires h > 0
    ensures (keyLen + h - 1) / h * h >= keyLen
  {
    var n := keyLen + h - 1;
    assert n == n / h * h + n % h;
  }

  /** The inner loop: XOR u into t in place. */
  method XorInto(t: array<Octet>, u: Octets)
    requires |u| == t.Length
    modifies t
    ensures t[..] == Xor(old(t[..]), u)
  {
    for j := 0 to t.Length
      invariant forall k :: 0 <= k < j ==> t[k] == XorOctet(old(t[k]), u[k])
      invariant forall k :: j <= k < t.Length ==> t[k] == old(t[k])
    {
      t[j] := XorOctet(t[j], u[j]);
    }
  }

  /** One block: t starts as U_1 and takes in U_2 .. U_c. */
  method Block(prf: Prf, hLen: nat, password: Octets, blockBuf: Octets, ghost salt: Octets, ghost i: nat,
          iterations: nat)
    returns (out: Octets)
    requires FixedLength(prf, hLen) && iterations >= 1
    requires blockBuf == salt + Int4(i)
    ensures out == F(prf, hLen, password, salt, iterations, i)
  {
    var u := prf(password, blockBuf);
    var t := new Octet[|u|](j requires 0 <= j < |u| => u[j]);
    assert t[..] == u;
    for n := 1 to iterations
      invariant t.Length == hLen
      invariant u == U(prf, password, salt, i, n)
      invariant t[..] == F(prf, hLen, password, salt, n, i)
    {
      u := prf(password, u);
      XorInto(t, u);
    }
    return t[..];
  }

  /** Octet `o` of block `b` in the derived key. */
  lemma OctetOfBlock(prf: Prf, hLen: nat, password: Octets, salt: Octets, c: nat, dkLen: nat, b: nat, o: nat)
    requires FixedLength(prf, hLen) && c >= 1 && o < hLen && b * hLen + o < dkLen
    ensures DK(prf, hLen, password, salt, c, dkLen)[b * hLen + o] == F(prf, hLen, password, salt, c, b + 1)[o]
  {
    DivideBlock(b, hLen, o);
  }

  /** T_1 || ... || T_b followed by T_(b+1). */
  lemma NextBlock(prf: Prf, hLen: nat, password: Octets, salt: Octets, c: nat, b: nat)
    requires FixedLength(prf, hLen) && c >= 1
    ensures DK(prf, hLen, password, salt, c, b * hLen) + F(prf, hLen, password, salt, c, b + 1)
            == DK(prf, hLen, password, salt, c, (b + 1) * hLen)
  {
    var size, len := b * hLen, (b + 1) * hLen;
    assert len == size + hLen;
    var all, f := DK(prf, hLen, password, salt, c, len), F(prf, hLen, password, salt, c, b + 1);
    forall o | 0 <= o < hLen
      ensures all[size..][o] == f[o]
    {
      OctetOfBlock(prf, hLen, password, salt, c, len, b, o);
    }
    assert all[..size] == DK(prf, hLen, password, salt, c, size);
    assert all[size..] == f;
    assert all == all[..size] + all[size..];
  }

  /** `pbkdf2Key` */
  method Pbkdf2Key(prf: Prf, hLen: nat, password: Octets, salt: Octets, iterations: nat, keyLen: nat)
    returns (key: Octets)
    requires FixedLength(prf, hLen) && iterations >= 1
    ensures key == DK(prf, hLen, password, salt, iterations, keyLen)
  {
    var numBlocks := (keyLen + hLen - 1) / hLen;
    var out: Octets := [];
    var block := 1;
    while block <= numBlocks
      invariant 1 <= block <= numBlocks + 1
      invariant out == DK(prf, hLen, password, salt, iterations, (block - 1) * hLen)
    {
      var t := Block(prf, hLen, password, salt + Int4(block), salt, block, iterations);
      NextBlock(prf, hLen, password, salt, iterations, block - 1);
      out := out + t;
      block := block + 1;
    }
    EnoughBlocks(keyLen, hLen);
    return out[..keyLen];
  }
}
