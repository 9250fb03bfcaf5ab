/** SHA-256 and hexadecimal text.  SHA-256 is an arbitrary function from byte strings to
    32-byte digests; no property of it is assumed.  Binding results are relative to the finite
    set of preimages that the program really hashed being free of collisions. */
module Hashing {
  type Byte = c: char | c as int < 256

  type Digest = d: seq<Byte> | |d| == 32 witness seq(32, _ => 0 as char)

  type Sha = string -> Digest

  ghost predicate CollisionFree(sha: Sha, preimages: set<string>) {
    forall x, y :: x in preimages && y in preimages && sha(x) == sha(y) ==> x == y
  }

  lemma CollisionFreeSubset(sha: Sha, small: set<string>, large: set<string>)
    requires CollisionFree(sha, large) && small <= large
    ensures CollisionFree(sha, small)
  {
  }

  function HexDigit(n: nat): (c: char)
    requires n < 16
    ensures c != '|'
  {
    if n < 10 then ('0' as int + n) as char else ('a' as int + n - 10) as char
  }

  function Hex(bytes: seq<Byte>): (text: string)
    ensures |text| == 2 * |bytes|
    ensures '|' !in text
  {
    if bytes == [] then ""
    else [HexDigit(bytes[0] as int / 16), HexDigit(bytes[0] as int % 16)] + Hex(bytes[1..])
  }

  lemma HexByteInjective(x: Byte, y: Byte)
    requires HexDigit(x as int / 16) == HexDigit(y as int / 16) && HexDigit(x as int % 16) == HexDigit(y as int % 16)
    ensures x == y
  {
    assert x as int / 16 == y as int / 16 && x as int % 16 == y as int % 16;
  }

  lemma {:induction false} HexInjective(a: seq<Byte>, b: seq<Byte>)
    requires Hex(a) == Hex(b)
    ensures a == b
  {
    assert |a| == |b|;
    if a != [] {
      hide HexDigit;
      assert Hex(a)[0] == Hex(b)[0] && Hex(a)[1] == Hex(b)[1];
      HexByteInjective(a[0], b[0]);
      assert Hex(a[1..]) == Hex(a)[2..] && Hex(b[1..]) == Hex(b)[2..];
      HexInjective(a[1..], b[1..]);
    }
  }

  function Sha256Hex(sha: Sha, data: string): (text: string)
    ensures |text| == 64 && '|' !in text
  {
    Hex(sha(data))
  }

  /** Equal hexadecimal digests of collision-free preimages come from one preimage. */
  lemma Sha256HexBinding(sha: Sha, x: string, y: string, preimages: set<string>)
    requires CollisionFree(sha, preimages) && x in preimages && y in preimages
    requires Sha256Hex(sha, x) == Sha256Hex(sha, y)
    ensures x == y
  {
    HexInjective(sha(x), sha(y));
  }
}
