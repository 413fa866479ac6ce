/**
 * The scalar string and memory helpers of src/libraries/string/string.h:
 * `string_length_as`, `copy_memory` and `is_aligned`.  Memory is an array of
 * bytes; a pointer is an array (and, for `is_aligned`, an address).
 */
module CatString {
  import opened Arith

  newtype byte = x: int | 0 <= x < 0x100

  /** string_length_as: the index of the first NUL byte of a NUL-terminated string. */
  method StringLengthAs(p: array<byte>) returns (result: nat)
    requires exists i :: 0 <= i < p.Length && p[i] == 0
    ensures result < p.Length && p[result] == 0
    ensures forall i :: 0 <= i < result ==> p[i] != 0
    ensures 0 in p[..] && result == NulIndex(p[..])
  {
    result := 0;
    while p[result] != 0
      invariant result < p.Length
      invariant forall i :: 0 <= i < result ==> p[i] != 0
      decreases p.Length - result
    {
      result := result + 1;
    }
    StringLengthIsNulIndex(p[..], result);
  }

  /** The length of a NUL-terminated string, as a function of its bytes: the partner of StringLengthAs. */
  function NulIndex(s: seq<byte>): (n: nat)
    requires 0 in s
    ensures n < |s| && s[n] == 0 && 0 !in s[..n]
  {
    if s[0] == 0 then 0 else (assert 0 in s[1..]; 1 + NulIndex(s[1..]))
  }

  /** Bytes after the first NUL do not change the length. */
  lemma {:induction false} NulIndexIgnoresTail(s: seq<byte>, t: seq<byte>)
    requires 0 in s
    ensures 0 in s + t && NulIndex(s + t) == NulIndex(s)
    decreases |s|
  {
    if s[0] != 0 {
      assert (s + t)[1..] == s[1..] + t;
      assert 0 in s[1..];
      NulIndexIgnoresTail(s[1..], t);
    }
  }

  /** The index StringLengthAs finds is the one NulIndex names. */
  lemma StringLengthIsNulIndex(s: seq<byte>, n: nat)
    requires n < |s| && s[n] == 0 && forall i :: 0 <= i < n ==> s[i] != 0
    ensures 0 in s && NulIndex(s) == n
  {
    assert s[n] in s;
    var k := NulIndex(s);
    if k != n {
      assert false;
    }
  }

  /** The destination after copying the first `bytes` bytes of the source (none when bytes <= 0). */
  function CopiedPrefix(destination: seq<byte>, source: seq<byte>, bytes: int): (r: seq<byte>)
    requires bytes <= |source| && bytes <= |destination|
    ensures |r| == |destination|
    ensures forall i :: 0 <= i < bytes ==> r[i] == source[i]
    ensures forall i :: 0 <= i < |r| && !(i < bytes) ==> r[i] == destination[i]
  {
    if bytes <= 0 then destination else source[..bytes] + destination[bytes..]
  }

  /**
   * copy_memory: copies `bytes` bytes from source to destination, one at a
   * time from the front; a count of zero or less copies nothing.  The two
   * regions are different arrays.
   */
  method CopyMemory(source: array<byte>, destination: array<byte>, bytes: int)
    requires source != destination
    requires bytes <= source.Length && bytes <= destination.Length
    modifies destination
    ensures destination[..] == CopiedPrefix(old(destination[..]), source[..], bytes)
  {
    var i := 0;
    while i < bytes
      invariant 0 <= i <= (if bytes > 0 then bytes else 0)
      invariant destination[..] == CopiedPrefix(old(destination[..]), source[..], i)
      decreases bytes - i
    {
      destination[i] := source[i];
      i := i + 1;
    }
  }

  /** Copying is idempotent: copying the same prefix again changes nothing. */
  lemma CopiedPrefixIdempotent(destination: seq<byte>, source: seq<byte>, bytes: int)
    requires bytes <= |source| && bytes <= |destination|
    ensures CopiedPrefix(CopiedPrefix(destination, source, bytes), source, bytes)
         == CopiedPrefix(destination, source, bytes)
  {
    var once := CopiedPrefix(destination, source, bytes);
    var twice := CopiedPrefix(once, source, bytes);
    assert forall i :: 0 <= i < |twice| ==> twice[i] == once[i];
  }

  /** Copying a whole source of the destination's length replaces the destination. */
  lemma CopiedPrefixWhole(destination: seq<byte>, source: seq<byte>)
    requires |source| == |destination|
    ensures CopiedPrefix(destination, source, |source|) == source
  {
    var r := CopiedPrefix(destination, source, |source|);
    assert forall i :: 0 <= i < |r| ==> r[i] == source[i];
  }

  /**
   * is_aligned: the address (a 64-bit value) modulo a positive alignment is 0;
   * that is, the address is a whole number of alignment units.
   */
  function IsAligned(address: u64, byteAlignment: nat): (r: bool)
    requires byteAlignment > 0
    ensures r <==> address as nat == (address as nat / byteAlignment) * byteAlignment
  {
    var a := address as nat;
    assert a == (a / byteAlignment) * byteAlignment + a % byteAlignment;
    a % byteAlignment == 0
  }

  /** Any multiple of the alignment is aligned. */
  lemma MultipleIsAligned(k: nat, byteAlignment: nat)
    requires byteAlignment > 0 && k * byteAlignment < 0x1_0000_0000_0000_0000
    ensures IsAligned((k * byteAlignment) as u64, byteAlignment)
  {
    DivModUnique(k * byteAlignment, byteAlignment, k, 0);
  }

  /** Alignment to a multiple implies alignment to each factor. */
  lemma AlignedToFactor(address: u64, a: nat, b: nat)
    requires a > 0 && b > 0
    ensures a * b > 0
    ensures IsAligned(address, a * b) ==> IsAligned(address, a)
  {
    var n := address as nat;
    if n % (a * b) == 0 {
      var q := n / (a * b);
      assert n == q * (a * b);
      assert n == (q * b) * a;
      DivModUnique(n, a, q * b, 0);
    }
  }
}
