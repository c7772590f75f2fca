/** asn1Length and isAsn1Encode of library/encoder/src/asn1Parser.cpp against the definite
    lengths of section 8.1.3 of ITU-T X.690. */
module Asn1Length {
  import opened Common

  type Byte = b: int | 0 <= b < 256

  /** A pointer into the blob and a length; the null pointer is -1. */
  datatype Chunk = Chunk(ptr: int, len: nat)

  const NO_CHUNK := Chunk(-1, 0)

  /** The chunk lies in a blob of `size` bytes. */
  predicate Inside(c: Chunk, size: nat) {
    c == NO_CHUNK || 0 <= c.ptr <= c.ptr + c.len <= size
  }

  function End(c: Chunk): int {
    c.ptr + c.len
  }

  // ----- What the standard says -----

  function BigEndian(octets: seq<Byte>): nat {
    if octets == [] then 0 else 256 * BigEndian(octets[..|octets| - 1]) + octets[|octets| - 1]
  }

  datatype Header = Header(octets: nat, length: nat)

  /** The identifier and length octets at the start of `w`, and the length they give. */
  function HeaderOf(w: seq<Byte>): Option<Header> {
    if |w| < 2 then None
    else if w[1] < 0x80 then Some(Header(2, w[1]))
    else
      var k := w[1] - 0x80;
      if k == 0 || k > |w| - 2 then None else Some(Header(2 + k, BigEndian(w[2..2 + k])))
  }

  /** The lengths the parser takes: contents that are there, at most four length octets and
      no more than 31 bits. */
  function Accepted(w: seq<Byte>): (h: Option<Header>)
    ensures h.Some? ==> h.value.octets + h.value.length <= |w|
  {
    var h := HeaderOf(w);
    if h.Some? && h.value.octets <= 6 && h.value.length < 0x8000_0000 && h.value.octets + h.value.length <= |w|
    then h else None
  }

  /** A length in the long form with `k` octets. */
  function LongForm(length: nat, k: nat): seq<Byte> {
    if k == 0 then [] else LongForm(length / 256, k - 1) + [length % 256]
  }

  function Power256(k: nat): nat {
    if k == 0 then 1 else 256 * Power256(k - 1)
  }

  lemma {:induction false} LongFormValue(length: nat, k: nat)
    requires length < Power256(k)
    ensures |LongForm(length, k)| == k && BigEndian(LongForm(length, k)) == length
    decreases k
  {
    if k > 0 {
      LongFormValue(length / 256, k - 1);
      var o := LongForm(length, k);
      assert o[..|o| - 1] == LongForm(length / 256, k - 1);
    }
  }

  /** An object with its length in the short form is accepted with that length. */
  lemma ShortFormAccepted(tag: Byte, contents: seq<Byte>, rest: seq<Byte>)
    requires |contents| < 0x80
    ensures Accepted([tag, |contents|] + contents + rest) == Some(Header(2, |contents|))
  {
  }

  lemma LongFormHeader(tag: Byte, k: nat, o: seq<Byte>, after: seq<Byte>)
    requires 1 <= k <= 4 && |o| == k && BigEndian(o) <= |after| && BigEndian(o) < 0x8000_0000
    ensures Accepted([tag, 0x80 + k] + o + after) == Some(Header(2 + k, BigEndian(o)))
  {
    var w := [tag, 0x80 + k] + o + after;
    assert w[1] == 0x80 + k && w[2..2 + k] == o;
  }

  /** And so is one with its length in the long form of up to four octets, minimal or not. */
  lemma LongFormAccepted(tag: Byte, k: nat, contents: seq<Byte>, rest: seq<Byte>)
    requires 1 <= k <= 4 && |contents| < Power256(k) && |contents| < 0x8000_0000
    ensures Accepted([tag, 0x80 + k] + LongForm(|contents|, k) + (contents + rest)) == Some(Header(2 + k, |contents|))
  {
    LongFormValue(|contents|, k);
    LongFormHeader(tag, k, LongForm(|contents|, k), contents + rest);
  }

  // ----- The parser's way -----

  function Signed32(x: int): int {
    (x + 0x8000_0000) % 0x1_0000_0000 - 0x8000_0000
  }

  lemma {:induction false} BigEndianBound(octets: seq<Byte>)
    ensures BigEndian(octets) < Power256(|octets|)
  {
    if octets != [] {
      BigEndianBound(octets[..|octets| - 1]);
    }
  }

  lemma FourOctets(k: nat)
    requires k <= 4
    ensures Power256(k) <= 0x1_0000_0000 && (k <= 3 ==> Power256(k) <= 0x100_0000)
  {
    assert Power256(1) == 256 && Power256(2) == 0x1_0000;
    assert Power256(3) == 0x100_0000;
  }

  /** The loop over the octets of a long form. */
  method ReadOctets(bytes: seq<Byte>, blob: Chunk, n: nat) returns (len: int, moved: Chunk)
    requires Inside(blob, |bytes|) && blob != NO_CHUNK && n <= blob.len && n <= 4
    ensures moved == Chunk(blob.ptr + n, blob.len - n)
    ensures var value := BigEndian(bytes[blob.ptr..blob.ptr + n]);
            if value < 0x8000_0000 then len == value else len < 0
  {
    len, moved := 0, blob;
    var k: nat := 0;
    ghost var octets := bytes[blob.ptr..blob.ptr + n];
    assert octets[..0] == [];
    while k < n
      invariant k <= n && moved == Chunk(blob.ptr + k, blob.len - k)
      invariant len == Signed32(BigEndian(octets[..k]))
    {
      BigEndianBound(octets[..k]);
      FourOctets(k);
      assert octets[k] == bytes[moved.ptr];
      assert octets[..k + 1][..k] == octets[..k];
      len := Signed32(256 * len + bytes[moved.ptr]);
      moved := Chunk(moved.ptr + 1, moved.len - 1);
      k := k + 1;
    }
    assert octets[..k] == octets;
    BigEndianBound(octets);
    FourOctets(k);
  }

  /** Moves the chunk past the length octets; none for the invalid length. */
  method ReadLength(bytes: seq<Byte>, blob: Chunk) returns (length: Option<nat>, moved: Chunk)
    requires Inside(blob, |bytes|) && blob != NO_CHUNK
    ensures var h := Accepted(bytes[blob.ptr..End(blob)]);
            length == if h.Some? then Some(h.value.length) else None
    ensures Inside(moved, |bytes|) && moved != NO_CHUNK && End(moved) == End(blob) && moved.ptr >= blob.ptr
    ensures length.Some? ==> moved.ptr == blob.ptr + Accepted(bytes[blob.ptr..End(blob)]).value.octets
                             && length.value <= moved.len
  {
    moved := blob;
    ghost var w := bytes[blob.ptr..End(blob)];
    if blob.len < 2 {
      return None, moved;
    }
    var n := bytes[blob.ptr + 1];
    assert n == w[1];
    moved := Chunk(blob.ptr + 2, blob.len - 2);
    if n < 0x80 {
      return if n > moved.len then None else Some(n), moved;
    }
    n := n % 0x80;
    if n == 0 || n > moved.len || n > 4 {
      return None, moved;
    }
    var len;
    len, moved := ReadOctets(bytes, moved, n);
    assert w[2..2 + n] == bytes[blob.ptr + 2..blob.ptr + 2 + n];
    // A negative length becomes a huge one in the comparison.
    if len < 0 || len > moved.len {
      return None, moved;
    }
    return Some(len), moved;
  }

  /** isAsn1Encode: a sequence, set or octet string that fills the blob, but for a newline. */
  method IsAsn1Encode(bytes: seq<Byte>) returns (yes: bool)
    ensures yes <==>
              && |bytes| > 0 && bytes[0] in {0x30, 0x31, 0x04} && Accepted(bytes).Some?
              && var end := Accepted(bytes).value.octets + Accepted(bytes).value.length;
                 |bytes| == end || (|bytes| == end + 1 && bytes[end] == 10)
  {
    if |bytes| == 0 {
      return false;
    }
    var tag := bytes[0];
    if tag != 0x30 && tag != 0x31 && tag != 0x04 {
      return false;
    }
    var len, blob := ReadLength(bytes, Chunk(0, |bytes|));
    assert bytes[0..|bytes|] == bytes;
    if len.None? {
      return false;
    }
    if len.value == blob.len {
      return true;
    }
    return len.value + 1 == blob.len && bytes[blob.ptr + len.value] == 10;
  }
}
