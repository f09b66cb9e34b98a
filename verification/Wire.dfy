/** Packed structures of protocol.hpp: fields laid end to end with no padding. */
module Layout {
  import opened Bytes

  datatype Field = Int(width: nat) | Raw(size: nat)
  datatype Value = Num(n: nat) | Block(bytes: seq<Byte>)

  function Width(f: Field): nat {
    match f
    case Int(width) => width
    case Raw(size) => size
  }

  predicate Fits(f: Field, v: Value) {
    match f
    case Int(width) => v.Num? && v.n < Pow256(width)
    case Raw(size) => v.Block? && |v.bytes| == size
  }

  predicate FitsAll(fs: seq<Field>, vs: seq<Value>) {
    |fs| == |vs| && forall k :: 0 <= k < |fs| ==> Fits(fs[k], vs[k])
  }

  function SizeOf(fs: seq<Field>): nat {
    if fs == [] then 0 else Width(fs[0]) + SizeOf(fs[1..])
  }

  function Image(f: Field, v: Value): (b: seq<Byte>)
    requires Fits(f, v)
    ensures |b| == Width(f)
  {
    match v
    case Num(n) => LittleEndian(n, Width(f))
    case Block(bytes) => bytes
  }

  function ValueOf(f: Field, b: seq<Byte>): (v: Value)
    requires |b| == Width(f)
    ensures v.Num? <==> f.Int?
  {
    match f
    case Int(_) => Num(Number(b))
    case Raw(_) => Block(b)
  }

  function Pack(fs: seq<Field>, vs: seq<Value>): (b: seq<Byte>)
    requires FitsAll(fs, vs)
    ensures |b| == SizeOf(fs)
  {
    if fs == [] then [] else Image(fs[0], vs[0]) + Pack(fs[1..], vs[1..])
  }

  function Offset(fs: seq<Field>, k: nat): (o: nat)
    requires k <= |fs|
    ensures o <= SizeOf(fs)
    ensures k < |fs| ==> o + Width(fs[k]) <= SizeOf(fs)
  {
    if k == 0 then 0 else Width(fs[0]) + Offset(fs[1..], k - 1)
  }

  /** Field k read through a pointer to the structure at the start of p. */
  function Read(fs: seq<Field>, p: seq<Byte>, k: nat): (v: Value)
    requires k < |fs| && Offset(fs, k) + Width(fs[k]) <= |p|
    ensures v.Num? <==> fs[k].Int?
  {
    ValueOf(fs[k], p[Offset(fs, k)..Offset(fs, k) + Width(fs[k])])
  }

  lemma ValueOfImage(f: Field, v: Value)
    requires Fits(f, v)
    ensures ValueOf(f, Image(f, v)) == v
  {
    if v.Num? {
      NumberOfImage(v.n, Width(f));
    }
  }

  lemma ImageOfValue(f: Field, b: seq<Byte>)
    requires |b| == Width(f)
    ensures Fits(f, ValueOf(f, b)) && Image(f, ValueOf(f, b)) == b
  {
    if f.Int? {
      ImageOfNumber(b);
    }
  }

  lemma SliceOfCut(p: seq<Byte>, n: nat, rest: seq<Byte>, o: nat, w: nat)
    requires o + w <= n <= |p|
    ensures (p[..n] + rest)[o..o + w] == p[o..o + w]
  {}

  lemma SliceOfTail(b: seq<Byte>, tail: seq<Byte>, o: nat, w: nat)
    requires o + w <= |tail|
    ensures (b + tail)[|b| + o..|b| + o + w] == tail[o..o + w]
  {}

  lemma {:induction false} PackedFieldAt(fs: seq<Field>, vs: seq<Value>, k: nat)
    requires FitsAll(fs, vs) && k < |fs|
    ensures Pack(fs, vs)[Offset(fs, k)..Offset(fs, k) + Width(fs[k])] == Image(fs[k], vs[k])
    decreases k
  {
    if k > 0 {
      PackedFieldAt(fs[1..], vs[1..], k - 1);
      SliceOfTail(Image(fs[0], vs[0]), Pack(fs[1..], vs[1..]), Offset(fs[1..], k - 1), Width(fs[k]));
    }
  }

  /** Every field that ends inside the first n bytes survives a cut of the structure to n bytes,
      whatever follows the cut. */
  lemma ReadOfCutPack(fs: seq<Field>, vs: seq<Value>, n: nat, rest: seq<Byte>, k: nat)
    requires FitsAll(fs, vs) && k < |fs|
    requires Offset(fs, k) + Width(fs[k]) <= n <= SizeOf(fs)
    ensures Read(fs, Pack(fs, vs)[..n] + rest, k) == vs[k]
  {
    var p, o, w := Pack(fs, vs), Offset(fs, k), Width(fs[k]);
    PackedFieldAt(fs, vs, k);
    SliceOfCut(p, n, rest, o, w);
    ReadIs(fs, p[..n] + rest, k, o, Image(fs[k], vs[k]));
    ValueOfImage(fs[k], vs[k]);
  }

  lemma ReadIs(fs: seq<Field>, p: seq<Byte>, k: nat, o: nat, image: seq<Byte>)
    requires k < |fs| && o == Offset(fs, k) && |image| == Width(fs[k]) && o + |image| <= |p|
    requires p[o..o + |image|] == image
    ensures Read(fs, p, k) == ValueOf(fs[k], image)
  {}

  function Unpack(fs: seq<Field>, p: seq<Byte>): (vs: seq<Value>)
    requires SizeOf(fs) <= |p|
    ensures |vs| == |fs|
  {
    if fs == [] then []
    else
      var w := Width(fs[0]);
      [ValueOf(fs[0], p[..w])] + Unpack(fs[1..], p[w..])
  }

  lemma FirstOfThree(a: seq<Byte>, b: seq<Byte>, c: seq<Byte>)
    ensures (a + b + c)[..|a|] == a && (a + b + c)[|a|..] == b + c
  {}

  /** The codec round trip for every packed structure and every value of it. */
  lemma {:induction false} UnpackOfPack(fs: seq<Field>, vs: seq<Value>, rest: seq<Byte>)
    requires FitsAll(fs, vs)
    ensures Unpack(fs, Pack(fs, vs) + rest) == vs
    decreases |fs|
  {
    if fs == [] {
    } else {
      var first, others := Image(fs[0], vs[0]), Pack(fs[1..], vs[1..]);
      UnpackOfPack(fs[1..], vs[1..], rest);
      ValueOfImage(fs[0], vs[0]);
      FirstOfThree(first, others, rest);
      assert Pack(fs, vs) == first + others;
    }
  }

  lemma {:induction false} PackOfUnpack(fs: seq<Field>, p: seq<Byte>)
    requires SizeOf(fs) <= |p|
    ensures FitsAll(fs, Unpack(fs, p))
    ensures Pack(fs, Unpack(fs, p)) == p[..SizeOf(fs)]
    decreases |fs|
  {
    if fs == [] {
    } else {
      var w := Width(fs[0]);
      var vs := Unpack(fs, p);
      PackOfUnpack(fs[1..], p[w..]);
      ImageOfValue(fs[0], p[..w]);
      assert vs[1..] == Unpack(fs[1..], p[w..]);
      assert p[..SizeOf(fs)] == p[..w] + p[w..][..SizeOf(fs[1..])];
    }
  }
}
