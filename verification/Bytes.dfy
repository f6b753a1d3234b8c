/** Bytes, pooled buffers and the small library functions on byte slices that the
    Vision framing code uses. */
module Bytes {

  type byte = x: int | 0 <= x < 256

  type uint16 = x: int | 0 <= x < 0x1_0000

  /** A 16-bit big-endian field. */
  function BigEndian(hi: byte, lo: byte): uint16 {
    256 * hi + lo
  }

  /** Capacity of a pooled buffer. */
  const SIZE := 8192

  /** The content of a pooled buffer. */
  type Buffer = s: seq<byte> | |s| <= SIZE

  /** A `*buf.Buffer`: a nil pointer has length zero but is skipped by the TLS filter. */
  datatype Slot = Nil | Buf(data: Buffer) {
    function Content(): Buffer {
      if Nil? then [] else data
    }
  }

  type MultiBuffer = seq<Slot>

  /** The byte stream a multi-buffer stands for. */
  function Stream(mb: MultiBuffer): seq<byte> {
    if mb == [] then [] else mb[0].Content() + Stream(mb[1..])
  }

  function Flatten(cs: seq<seq<byte>>): seq<byte> {
    if cs == [] then [] else cs[0] + Flatten(cs[1..])
  }

  function Min(a: int, b: int): int {
    if a < b then a else b
  }

  lemma Assoc<T>(a: seq<T>, b: seq<T>, c: seq<T>)
    ensures a + (b + c) == a + b + c
  {}

  lemma {:induction false} StreamConcat(a: MultiBuffer, b: MultiBuffer)
    ensures Stream(a + b) == Stream(a) + Stream(b)
  {
    if a == [] {
      assert a + b == b;
    } else {
      StreamConcat(a[1..], b);
      assert (a + b)[1..] == a[1..] + b;
      Assoc(a[0].Content(), Stream(a[1..]), Stream(b));
    }
  }

  lemma {:induction false} FlattenConcat(a: seq<seq<byte>>, b: seq<seq<byte>>)
    ensures Flatten(a + b) == Flatten(a) + Flatten(b)
  {
    if a == [] {
      assert a + b == b;
    } else {
      FlattenConcat(a[1..], b);
      assert (a + b)[1..] == a[1..] + b;
      Assoc(a[0], Flatten(a[1..]), Flatten(b));
    }
  }

  lemma Associate<T>(a: seq<T>, b: seq<T>, c: seq<T>, d: seq<T>)
    ensures (a + b) + (c + d) == a + (b + c) + d
  {}

  lemma Nest<T>(a: seq<T>, b: seq<T>, c: seq<T>, d: seq<T>)
    ensures a + (b + c + d) == a + b + c + d
  {}

  /** The pattern occurs in `s` at index `i`. */
  predicate OccursAt(s: seq<byte>, pattern: seq<byte>, i: int) {
    0 <= i <= |s| - |pattern| && s[i..i + |pattern|] == pattern
  }

  /** `bytes.Contains`. */
  predicate Contains(s: seq<byte>, pattern: seq<byte>) {
    exists i :: 0 <= i <= |s| && OccursAt(s, pattern, i)
  }

  /** `bytes.LastIndex`: the last occurrence at or before `i`, or -1. */
  function LastIndexFrom(s: seq<byte>, pattern: seq<byte>, i: int): (r: int)
    requires i <= |s|
    ensures -1 <= r
    ensures r >= 0 ==> r <= i && OccursAt(s, pattern, r)
    ensures forall j :: r < j <= i ==> !OccursAt(s, pattern, j)
    decreases i + 1
  {
    if i < 0 then -1
    else if OccursAt(s, pattern, i) then i
    else LastIndexFrom(s, pattern, i - 1)
  }

  function LastIndex(s: seq<byte>, pattern: seq<byte>): int {
    LastIndexFrom(s, pattern, |s|)
  }
}
