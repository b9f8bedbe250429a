/** Bytes as scripts/sfr_font_text.py packs and unpacks them: numbers, slices, and parts laid
    end to end. */
module FontBytes {

  type Byte = b: nat | b < 256
  type Bytes = seq<Byte>

  const TWO_16: nat := 0x1_0000
  const TWO_32: nat := 0x1_0000_0000

  // ------------------------------------------------------------ numbers

  function Put16(v: nat): (b: Bytes)
    requires v < TWO_16
    ensures |b| == 2
  {
    [v / 256, v % 256]
  }

  function Put32(v: nat): (b: Bytes)
    requires v < TWO_32
    ensures |b| == 4
  {
    Put16(v / TWO_16) + Put16(v % TWO_16)
  }

  /** Little-endian. */
  function PutLittle(v: nat): (b: Bytes)
    requires v < TWO_32
    ensures |b| == 4
  {
    var b := Put32(v);
    [b[3], b[2], b[1], b[0]]
  }

  function Signed(v: int): nat
    requires -0x8000_0000 <= v < 0x8000_0000
  {
    if v < 0 then v + TWO_32 else v
  }

  function Get16(d: Bytes, at: nat): (v: nat)
    requires at + 2 <= |d|
    ensures v < TWO_16
  {
    Two(d[at], d[at + 1])
  }

  function Two(high: nat, low: nat): (v: nat)
    requires high < 256 && low < 256
    ensures v < TWO_16
  {
    high * 256 + low
  }

  function Get32(d: Bytes, at: nat): (v: nat)
    requires at + 4 <= |d|
    ensures v < TWO_32
  {
    Get16(d, at) * TWO_16 + Get16(d, at + 2)
  }

  function GetLittle(d: Bytes, at: nat): nat
    requires at + 4 <= |d|
  {
    Two(d[at + 3], d[at + 2]) * TWO_16 + Two(d[at + 1], d[at])
  }

  function GetSigned(d: Bytes, at: nat): int
    requires at + 4 <= |d|
  {
    var v := Get32(d, at);
    if v >= 0x8000_0000 then v - TWO_32 else v
  }

  lemma Get16Put(v: nat)
    requires v < TWO_16
    ensures Get16(Put16(v), 0) == v
  {
  }

  lemma Get32Put(v: nat)
    requires v < TWO_32
    ensures Get32(Put32(v), 0) == v && GetLittle(PutLittle(v), 0) == v
  {
    Get16Put(v / TWO_16);
    Get16Put(v % TWO_16);
  }

  lemma GetSignedPut(v: int)
    requires -0x8000_0000 <= v < 0x8000_0000
    ensures Signed(v) < TWO_32 && GetSigned(Put32(Signed(v)), 0) == v
  {
    Get32Put(Signed(v));
  }

  /** A number inside a part of the data is the same number there. */
  lemma GetInside(d: Bytes, begin: nat, end: nat, at: nat)
    requires begin <= end <= |d| && begin + at <= end
    ensures begin + at + 2 <= end ==> Get16(d, begin + at) == Get16(d[begin..end], at)
    ensures begin + at + 4 <= end ==>
      Get32(d, begin + at) == Get32(d[begin..end], at) && GetSigned(d, begin + at) == GetSigned(d[begin..end], at)
    ensures begin + at + 4 <= end ==> GetLittle(d, begin + at) == GetLittle(d[begin..end], at)
  {
  }

  // ------------------------------------------------------------ slices

  /** data[begin:end], which is cut short past the end. */
  function Slice(d: Bytes, begin: nat, end: nat): Bytes {
    if begin >= end || begin >= |d| then [] else d[begin..if end <= |d| then end else |d|]
  }

  lemma SliceIs(d: Bytes, begin: nat, end: nat)
    requires begin <= end <= |d|
    ensures Slice(d, begin, end) == d[begin..end]
  {
  }

  function Zeros(n: nat): (b: Bytes)
    ensures |b| == n && forall i | 0 <= i < n :: b[i] == 0
  {
    seq(n, i => 0)
  }

  // ------------------------------------------------------------ parts end to end

  function Concat(parts: seq<Bytes>): Bytes {
    if parts == [] then [] else Concat(parts[..|parts| - 1]) + parts[|parts| - 1]
  }

  /** Where a part begins. */
  function Start(parts: seq<Bytes>, i: nat): nat
    requires i <= |parts|
  {
    |Concat(parts[..i])|
  }

  lemma ConcatOne(parts: seq<Bytes>, part: Bytes)
    ensures Concat(parts + [part]) == Concat(parts) + part
  {
    assert (parts + [part])[..|parts|] == parts;
  }

  lemma {:induction false} ConcatTwo(first: seq<Bytes>, second: seq<Bytes>)
    ensures Concat(first + second) == Concat(first) + Concat(second)
    decreases |second|
  {
    if second == [] {
      assert first + second == first;
    } else {
      var last := |second| - 1;
      ConcatTwo(first, second[..last]);
      assert first + second == (first + second[..last]) + [second[last]];
      ConcatOne(first + second[..last], second[last]);
      assert Concat(first) + Concat(second[..last]) + second[last] == Concat(first)
        + (Concat(second[..last]) + second[last]);
    }
  }

  /** A part is found again between its start and the next. */
  lemma ConcatAt(parts: seq<Bytes>, i: nat)
    requires i < |parts|
    ensures Start(parts, i) <= Start(parts, i + 1) == Start(parts, i) + |parts[i]| <= |Concat(parts)|
    ensures Concat(parts)[Start(parts, i)..Start(parts, i + 1)] == parts[i]
  {
    assert parts[..i + 1] == parts[..i] + [parts[i]];
    ConcatOne(parts[..i], parts[i]);
    ConcatTwo(parts[..i + 1], parts[i + 1..]);
    assert parts == parts[..i + 1] + parts[i + 1..];
    var before, rest := Concat(parts[..i]), Concat(parts[i + 1..]);
    assert Concat(parts) == before + parts[i] + rest;
  }

  lemma StartOfAll(parts: seq<Bytes>)
    ensures Start(parts, |parts|) == |Concat(parts)| && Start(parts, 0) == 0
  {
    assert parts[..|parts|] == parts;
  }

  /** Parts of one size begin at its multiples. */
  lemma {:induction false} StartOfEven(parts: seq<Bytes>, size: nat, i: nat)
    requires i <= |parts| && forall k | 0 <= k < |parts| :: |parts[k]| == size
    ensures Start(parts, i) == size * i
  {
    if i > 0 {
      StartOfEven(parts, size, i - 1);
      assert parts[..i] == parts[..i - 1] + [parts[i - 1]];
      ConcatOne(parts[..i - 1], parts[i - 1]);
    }
  }

  /** >%dI. */
  function Put32s(values: seq<nat>): (b: Bytes)
    requires forall k | 0 <= k < |values| :: values[k] < TWO_32
    ensures |b| == 4 * |values|
  {
    var parts: seq<Bytes> := seq(|values|, k requires 0 <= k < |values| => Put32(values[k]));
    StartOfEven(parts, 4, |values|);
    StartOfAll(parts);
    Concat(parts)
  }

  lemma Get32Puts(values: seq<nat>, i: nat)
    requires (forall k | 0 <= k < |values| :: values[k] < TWO_32) && i < |values|
    ensures Get32(Put32s(values), 4 * i) == values[i]
  {
    var parts: seq<Bytes> := seq(|values|, k requires 0 <= k < |values| => Put32(values[k]));
    StartOfEven(parts, 4, i);
    StartOfEven(parts, 4, i + 1);
    ConcatAt(parts, i);
    GetInside(Concat(parts), 4 * i, 4 * i + 4, 0);
    Get32Put(values[i]);
  }

  /** The numbers at a place, read one after the other. */
  function Get32s(d: Bytes, at: nat, count: nat): (values: seq<nat>)
    requires at + 4 * count <= |d|
    ensures |values| == count
  {
    seq(count, k requires 0 <= k < count => Get32(d, at + 4 * k))
  }

  lemma Get32sInside(d: Bytes, at: nat, values: seq<nat>)
    requires forall k | 0 <= k < |values| :: values[k] < TWO_32
    requires at + 4 * |values| <= |d| && d[at..at + 4 * |values|] == Put32s(values)
    ensures Get32s(d, at, |values|) == values
  {
    forall k | 0 <= k < |values| ensures Get32(d, at + 4 * k) == values[k] {
      GetInside(d, at, at + 4 * |values|, 4 * k);
      Get32Puts(values, k);
    }
  }
}
