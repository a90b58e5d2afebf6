/** Bytes on the wire: little-endian numbers, arrays and structs laid out field by field. */
module Wire {
  import opened Arith

  // ----- Numbers

  /** 256 to the power of `w`. */
  function Max(w: nat): (m: int)
    ensures m >= 1
  {
    if w == 0 then 1 else 256 * Max(w - 1)
  }

  function Bytes(v: int, w: nat): (b: seq<int>)
    ensures |b| == w
    decreases w
  {
    if w == 0 then [] else [v % 256] + Bytes(v / 256, w - 1)
  }

  function Number(b: seq<int>): int {
    if b == [] then 0 else b[0] + 256 * Number(b[1..])
  }

  lemma {:induction false} NumberBytes(v: int, w: nat)
    requires 0 <= v < Max(w)
    ensures Number(Bytes(v, w)) == v
  {
    if w > 0 {
      NumberBytes(v / 256, w - 1);
      assert Bytes(v, w)[1..] == Bytes(v / 256, w - 1);
    }
  }

  /** Two's complement. */
  function Signed(v: int, w: nat): (b: seq<int>)
    ensures |b| == w
  {
    Bytes(if v < 0 then v + Max(w) else v, w)
  }

  function FromSigned(b: seq<int>): int {
    var u := Number(b); if 2 * u >= Max(|b|) then u - Max(|b|) else u
  }

  predicate Fits(v: int, w: nat) {
    -Max(w) <= 2 * v < Max(w)
  }

  lemma SignedTrip(v: int, w: nat)
    requires Fits(v, w)
    ensures FromSigned(Signed(v, w)) == v
  {
    NumberBytes(if v < 0 then v + Max(w) else v, w);
  }

  function Bool(b: bool): (r: seq<int>)
    ensures |r| == 1
  {
    [if b then 1 else 0]
  }

  function FromBool(b: seq<int>): bool {
    Number(b) != 0
  }

  lemma BoolTrip(b: bool)
    ensures FromBool(Bool(b)) == b
  {
    var x := Bool(b);
    assert x[1..] == [] && Number(x) == x[0] + 256 * Number(x[1..]);
  }

  // ----- Concatenation

  function Flat(fs: seq<seq<int>>): seq<int> {
    if fs == [] then [] else Flat(fs[..|fs| - 1]) + fs[|fs| - 1]
  }

  lemma {:induction false} FlatSplit(a: seq<seq<int>>, b: seq<seq<int>>)
    ensures Flat(a + b) == Flat(a) + Flat(b)
  {
    if b == [] {
      assert a + b == a;
    } else {
      var init, last := b[..|b| - 1], b[|b| - 1];
      FlatSplit(a, init);
      assert (a + b)[..|a + b| - 1] == a + init && (a + b)[|a + b| - 1] == last;
      assert Flat(a + b) == Flat(a + init) + last && Flat(b) == Flat(init) + last;
      assert (Flat(a) + Flat(init)) + last == Flat(a) + (Flat(init) + last);
    }
  }

  /** Piece `i` sits behind the pieces before it. */
  lemma FlatAt(fs: seq<seq<int>>, i: int, rest: seq<int>)
    requires 0 <= i < |fs|
    ensures var o := |Flat(fs[..i])|;
            o + |fs[i]| <= |Flat(fs)| && (Flat(fs) + rest)[o..o + |fs[i]|] == fs[i]
  {
    assert fs == (fs[..i] + [fs[i]]) + fs[i + 1..];
    FlatSplit(fs[..i] + [fs[i]], fs[i + 1..]);
    FlatSplit(fs[..i], [fs[i]]);
    assert [fs[i]][..0] == [];
    assert Flat([fs[i]]) == fs[i];
  }

  // ----- Structs

  /** The offset of field `i` of a struct with these field widths. */
  function Offset(widths: seq<nat>, i: nat): (o: nat)
    requires i <= |widths|
  {
    if i == 0 then 0 else Offset(widths, i - 1) + widths[i - 1]
  }

  lemma {:induction false} OffsetMonotone(widths: seq<nat>, i: nat, j: nat)
    requires i <= j <= |widths|
    ensures Offset(widths, i) <= Offset(widths, j)
  {
    if i < j { OffsetMonotone(widths, i, j - 1); }
  }

  ghost predicate HasWidths(fs: seq<seq<int>>, widths: seq<nat>) {
    |fs| == |widths| && forall i {:trigger fs[i]} :: 0 <= i < |fs| ==> |fs[i]| == widths[i]
  }

  lemma {:induction false} FlatOffset(fs: seq<seq<int>>, widths: seq<nat>, i: nat)
    requires HasWidths(fs, widths) && i <= |fs|
    ensures |Flat(fs[..i])| == Offset(widths, i)
  {
    if i > 0 {
      FlatOffset(fs, widths, i - 1);
      assert fs[..i][..i - 1] == fs[..i - 1];
    }
  }

  function SizeOf(widths: seq<nat>): nat {
    Offset(widths, |widths|)
  }

  /** Field `i` of the struct at the start of `buf`. */
  function Field(buf: seq<int>, widths: seq<nat>, i: nat): (f: seq<int>)
    requires i < |widths| && SizeOf(widths) <= |buf|
    ensures |f| == widths[i]
  {
    OffsetMonotone(widths, i + 1, |widths|);
    buf[Offset(widths, i)..Offset(widths, i) + widths[i]]
  }

  /** Reading a struct field by field gives the fields that were laid out. */
  lemma FieldsOf(fs: seq<seq<int>>, widths: seq<nat>, rest: seq<int>)
    requires HasWidths(fs, widths)
    ensures |Flat(fs)| == SizeOf(widths)
    ensures forall i: nat {:trigger Field(Flat(fs) + rest, widths, i)} :: i < |widths| ==>
      Field(Flat(fs) + rest, widths, i) == fs[i]
  {
    FlatOffset(fs, widths, |widths|);
    assert fs[..|widths|] == fs;
    forall i: nat | i < |widths| ensures Field(Flat(fs) + rest, widths, i) == fs[i] {
      FlatOffset(fs, widths, i);
      FlatAt(fs, i, rest);
    }
  }

  // ----- Arrays

  ghost predicate Uniform(fs: seq<seq<int>>, w: int) {
    forall i {:trigger fs[i]} :: 0 <= i < |fs| ==> |fs[i]| == w
  }

  lemma {:induction false} UniformSize(fs: seq<seq<int>>, w: int)
    requires Uniform(fs, w)
    ensures |Flat(fs)| == Times(w, |fs|)
  {
    TimesStep(w, |fs| - 1);
    if |fs| > 0 { UniformSize(fs[..|fs| - 1], w); }
  }

  /** Element `i` of an array of elements of `w` bytes at the start of `buf`. */
  function Element(buf: seq<int>, i: int, w: int): (e: seq<int>)
    requires 0 <= i && 0 <= w && Times(w, i + 1) <= |buf|
    ensures |e| == w
  {
    TimesStep(w, i);
    TimesMonotone(w, 0, i);
    buf[Times(w, i)..Times(w, i) + w]
  }

  lemma ElementOf(fs: seq<seq<int>>, w: int, i: int, rest: seq<int>)
    requires Uniform(fs, w) && 0 <= i < |fs| && 0 <= w
    ensures |Flat(fs)| == Times(w, |fs|) && Times(w, i + 1) <= |Flat(fs)|
    ensures Element(Flat(fs) + rest, i, w) == fs[i]
  {
    UniformSize(fs, w);
    UniformSize(fs[..i], w);
    TimesMonotone(w, i + 1, |fs|);
    FlatAt(fs, i, rest);
  }

  function SignedAll(xs: seq<int>, w: nat): (fs: seq<seq<int>>)
    ensures |fs| == |xs| && forall i {:trigger fs[i]} :: 0 <= i < |fs| ==> fs[i] == Signed(xs[i], w) && |fs[i]| == w
  {
    seq(|xs|, i requires 0 <= i < |xs| => Signed(xs[i], w))
  }

  function FromSignedAll(buf: seq<int>, n: nat, w: nat): (xs: seq<int>)
    requires Times(w, n) <= |buf|
    ensures |xs| == n
  {
    seq(n, i requires 0 <= i < n => TimesMonotone(w, i + 1, n); FromSigned(Element(buf, i, w)))
  }

  ghost predicate AllFit(xs: seq<int>, w: nat) {
    forall i {:trigger xs[i]} :: 0 <= i < |xs| ==> Fits(xs[i], w)
  }

  lemma ArrayTrip(xs: seq<int>, w: nat, rest: seq<int>)
    requires AllFit(xs, w)
    ensures |Flat(SignedAll(xs, w))| == Times(w, |xs|)
    ensures FromSignedAll(Flat(SignedAll(xs, w)) + rest, |xs|, w) == xs
  {
    hide FromSigned, Signed, Flat, Fits;
    var fs := SignedAll(xs, w);
    UniformSize(fs, w);
    var ys := FromSignedAll(Flat(fs) + rest, |xs|, w);
    forall i | 0 <= i < |xs| ensures ys[i] == xs[i] {
      ElementOf(fs, w, i, rest);
      SignedTrip(xs[i], w);
    }
  }
}
