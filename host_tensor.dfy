/** Host tensors: a backend-created byte buffer of exactly
    product(shape) * element width bytes, read and written by byte range,
    and copied to another tensor, possibly of another backend. */
module HostTensors {
  import opened ElementTypes
  import opened Wrappers

  newtype byte = b: int | 0 <= b < 256

  /** The backends a tensor can be created by (Backend::create("INTERPRETER"),
      Backend::create("GPU")). */
  datatype BackendKind = Interpreter | Gpu

  datatype TensorError = OutOfBounds(offset: nat, length: nat, size: nat)

  /** A product of naturals is zero exactly when a factor is. */
  lemma ProductZero(a: nat, b: nat)
    ensures a * b == 0 <==> a == 0 || b == 0
  {
    if a != 0 && b != 0 {
      assert a * b >= b;
    }
  }

  /** shape_size: the product of the dimensions; the scalar shape {} has
      product 1, and a shape holds no element exactly when some dimension
      is 0. */
  function ShapeSize(shape: seq<nat>): (r: nat)
    ensures r == 0 <==> exists k :: 0 <= k < |shape| && shape[k] == 0
  {
    if shape == [] then 1
    else
      var rest := ShapeSize(shape[1..]);
      ProductZero(shape[0], rest);
      assert forall k :: 1 <= k < |shape| ==> shape[k] == shape[1..][k - 1];
      shape[0] * rest
  }

  /** Tensor size in bytes for an element type and shape: no bytes exactly
      when the element type has no width or some dimension is 0. */
  function SizeInBytes(et: ElementType, shape: seq<nat>): (r: nat)
    ensures r == 0 <==> ByteWidth(et) == 0 || exists k :: 0 <= k < |shape| && shape[k] == 0
  {
    ProductZero(ShapeSize(shape), ByteWidth(et));
    ShapeSize(shape) * ByteWidth(et)
  }

  /** The sizes the tensor size test expects: f32 {2,3} is 24 bytes, f32 {}
      and f32 {1} are 4. */
  lemma TensorSizeCases()
    ensures SizeInBytes(F32, [2, 3]) == 2 * 3 * 4
    ensures SizeInBytes(F32, []) == 1 * 4
    ensures SizeInBytes(F32, [1]) == 1 * 4
  {
  }

  /** The bytes of `s` with `src` written over them from `offset` on. */
  function Overwrite(s: seq<byte>, offset: nat, src: seq<byte>): seq<byte>
    requires offset + |src| <= |s|
  {
    s[..offset] + src + s[offset + |src|..]
  }

  /** Reading back a written range yields exactly the written bytes; the
      buffer keeps its length and every byte outside the range. */
  lemma ReadAfterOverwrite(s: seq<byte>, offset: nat, src: seq<byte>)
    requires offset + |src| <= |s|
    ensures |Overwrite(s, offset, src)| == |s|
    ensures Overwrite(s, offset, src)[offset..offset + |src|] == src
    ensures forall i :: 0 <= i < |s| && !(offset <= i < offset + |src|) ==> Overwrite(s, offset, src)[i] == s[i]
  {
    var r := Overwrite(s, offset, src);
    assert r[offset..offset + |src|] == src;
  }

  /** A buffer that agrees with `src` over the range and with `s` elsewhere
      is `s` overwritten by `src`. */
  lemma PointwiseOverwrite(r: seq<byte>, s: seq<byte>, offset: nat, src: seq<byte>)
    requires |r| == |s| && offset + |src| <= |s|
    requires forall i :: 0 <= i < |r| ==> r[i] == if offset <= i < offset + |src| then src[i - offset] else s[i]
    ensures r == Overwrite(s, offset, src)
  {
  }

  /** Overwriting a whole buffer replaces it. */
  lemma OverwriteWhole(s: seq<byte>, src: seq<byte>)
    requires |src| == |s|
    ensures Overwrite(s, 0, src) == src
  {
    assert s[..0] + src + s[|src|..] == src;
  }

  /** Writing the same bytes at offset 0 and right after them fills a buffer
      of twice their length with their concatenation. */
  lemma WriteTwiceSideBySide(s: seq<byte>, src: seq<byte>)
    requires |s| == 2 * |src|
    ensures Overwrite(Overwrite(s, 0, src), |src|, src) == src + src
  {
  }

  class HostTensor {
    const backend: BackendKind
    const elemType: ElementType
    const shape: seq<nat>
    const buffer: array<byte>

    /** The buffer never changes size: it holds exactly size_in_bytes bytes. */
    ghost predicate Valid()
      reads this
    {
      buffer.Length == SizeInBytes(elemType, shape)
    }

    /** Backend::create_tensor(element_type, shape). */
    constructor (backend: BackendKind, elemType: ElementType, shape: seq<nat>)
      ensures Valid() && fresh(buffer)
      ensures this.backend == backend && this.elemType == elemType && this.shape == shape
    {
      this.backend := backend;
      this.elemType := elemType;
      this.shape := shape;
      buffer := new byte[SizeInBytes(elemType, shape)];
    }

    /** get_size_in_bytes(). */
    function GetSizeInBytes(): (n: nat)
      reads this
      requires Valid()
      ensures n == ShapeSize(shape) * ByteWidth(elemType)
    {
      buffer.Length
    }

    /** write(src, offset, |src|): fails when the range passes the end. */
    method Write(src: seq<byte>, offset: nat) returns (r: Outcome<TensorError>)
      requires Valid()
      modifies buffer
      ensures r.Pass? <==> offset + |src| <= buffer.Length
      ensures r.Pass? ==> buffer[..] == Overwrite(old(buffer[..]), offset, src)
      ensures r.Fail? ==> buffer[..] == old(buffer[..])
    {
      if offset + |src| > buffer.Length {
        return Fail(OutOfBounds(offset, |src|, buffer.Length));
      }
      for k := 0 to |src|
        invariant forall i :: 0 <= i < buffer.Length ==>
                    buffer[i] == if offset <= i < offset + k then src[i - offset] else old(buffer[i])
      {
        buffer[offset + k] := src[k];
      }
      PointwiseOverwrite(buffer[..], old(buffer[..]), offset, src);
      r := Pass;
    }

    /** read(dst, offset, n): the n bytes from `offset` on; fails when the
        range passes the end. */
    method Read(offset: nat, n: nat) returns (r: Result<seq<byte>, TensorError>)
      requires Valid()
      ensures r.Ok? <==> offset + n <= buffer.Length
      ensures r.Ok? ==> r.value == buffer[offset..offset + n]
      ensures r.Err? ==> r.error == OutOfBounds(offset, n, GetSizeInBytes())
    {
      if offset + n > buffer.Length {
        return Err(OutOfBounds(offset, n, buffer.Length));
      }
      r := Ok(buffer[offset..offset + n]);
    }

    /** copy_to(dst, offset, n): the same byte range of `dst` receives this
        tensor's bytes.  Tensors of one backend copy directly; otherwise the
        bytes are staged through host memory.  Either path leaves `dst` with
        the same bytes. */
    method CopyTo(dst: HostTensor, offset: nat, n: nat) returns (r: Outcome<TensorError>)
      requires Valid() && dst.Valid()
      modifies dst.buffer
      ensures r.Pass? <==> offset + n <= buffer.Length && offset + n <= dst.buffer.Length
      ensures r.Pass? ==> dst.buffer[..] == Overwrite(old(dst.buffer[..]), offset, old(buffer[offset..offset + n]))
      ensures r.Fail? ==> dst.buffer[..] == old(dst.buffer[..])
    {
      if offset + n > buffer.Length {
        return Fail(OutOfBounds(offset, n, buffer.Length));
      }
      if offset + n > dst.buffer.Length {
        return Fail(OutOfBounds(offset, n, dst.buffer.Length));
      }
      if backend == dst.backend {
        ghost var src := buffer[offset..offset + n];
        for k := 0 to n
          invariant forall i :: 0 <= i < dst.buffer.Length ==>
                      dst.buffer[i] == if offset <= i < offset + k then src[i - offset] else old(dst.buffer[i])
          invariant forall i :: offset + k <= i < offset + n ==> buffer[i] == src[i - offset]
        {
          dst.buffer[offset + k] := buffer[offset + k];
        }
        PointwiseOverwrite(dst.buffer[..], old(dst.buffer[..]), offset, src);
        r := Pass;
      } else {
        var staged := Read(offset, n);
        r := dst.Write(staged.value, offset);
      }
    }
  }

  /** Scaling by a positive width keeps the order of byte counts. */
  lemma ScaleOrder(n: nat, m: nat, w: nat)
    requires w > 0
    ensures n * w <= m * w <==> n <= m
  {
    if n > m {
      assert n * w == m * w + (n - m) * w;
    } else {
      assert m * w == n * w + (m - n) * w;
    }
  }

  /** A rank-2 shape holds rows * columns elements. */
  lemma ShapeSize2(rows: nat, cols: nat)
    ensures ShapeSize([rows, cols]) == rows * cols
  {
    assert [rows, cols][1..] == [cols];
    assert [cols][1..] == [];
    assert ShapeSize([cols]) == cols * ShapeSize([]);
  }

  /** The bytes of a vector of elements, each encoded in its own bytes. */
  function Flatten(xs: seq<seq<byte>>): seq<byte>
  {
    if xs == [] then [] else xs[0] + Flatten(xs[1..])
  }

  /** Every element takes `w` bytes. */
  predicate Uniform(xs: seq<seq<byte>>, w: nat)
  {
    forall k :: 0 <= k < |xs| ==> |xs[k]| == w
  }

  lemma {:induction false} FlattenLength(xs: seq<seq<byte>>, w: nat)
    requires Uniform(xs, w)
    ensures |Flatten(xs)| == |xs| * w
  {
    if xs != [] {
      FlattenLength(xs[1..], w);
    }
  }

  lemma {:induction false} FlattenConcat(a: seq<seq<byte>>, b: seq<seq<byte>>)
    ensures Flatten(a + b) == Flatten(a) + Flatten(b)
  {
    if a == [] {
      assert a + b == b;
    } else {
      assert (a + b)[1..] == a[1..] + b;
      FlattenConcat(a[1..], b);
    }
  }

  /** Elements i..j of a vector sit between the encodings of its first i
      and its first j elements. */
  lemma FlattenSlice(xs: seq<seq<byte>>, i: nat, j: nat)
    requires i <= j <= |xs|
    ensures |Flatten(xs[..i])| <= |Flatten(xs[..j])| <= |Flatten(xs)|
    ensures Flatten(xs)[|Flatten(xs[..i])|..|Flatten(xs[..j])|] == Flatten(xs[i..j])
  {
    var pre, mid, post := xs[..i], xs[i..j], xs[j..];
    assert xs[..j] == pre + mid;
    assert xs == xs[..j] + post;
    FlattenConcat(xs[..j], post);
    FlattenConcat(pre, mid);
  }

  /** The |x| elements from element 1 on of two copies of x are the bytes
      from the first element's end on. */
  lemma DoubledWindow(x: seq<seq<byte>>)
    requires |x| > 0
    ensures |x[0]| + |Flatten(x)| <= 2 * |Flatten(x)|
    ensures Flatten(x + x) == Flatten(x) + Flatten(x)
    ensures (Flatten(x) + Flatten(x))[|x[0]|..|x[0]| + |Flatten(x)|] == Flatten((x + x)[1..|x| + 1])
  {
    var xx, f := x + x, Flatten(x);
    FlattenConcat(x, x);
    DoubledPrefixes(x);
    FlattenSlice(xx, 1, |x| + 1);
    FirstWithin(x);
    var lo, hi := |Flatten(xx[..1])|, |Flatten(xx[..|x| + 1])|;
    assert lo == |x[0]| && hi == |x[0]| + |f|;
    assert Flatten(xx)[lo..hi] == Flatten(xx[1..|x| + 1]);
  }

  /** The first element of two copies of x is x[0], and the first |x| + 1
      are x followed by x[0]. */
  lemma DoubledPrefixes(x: seq<seq<byte>>)
    requires |x| > 0
    ensures |Flatten((x + x)[..1])| == |x[0]|
    ensures |Flatten((x + x)[..|x| + 1])| == |Flatten(x)| + |x[0]|
  {
    assert (x + x)[..1] == [x[0]];
    assert Flatten([x[0]]) == x[0] + Flatten([]);
    assert (x + x)[..|x| + 1] == x + [x[0]];
    FlattenConcat(x, [x[0]]);
  }

  /** The first element's bytes lead the encoding. */
  lemma FirstWithin(x: seq<seq<byte>>)
    requires |x| > 0
    ensures |x[0]| <= |Flatten(x)|
  {
    assert Flatten(x) == x[0] + Flatten(x[1..]);
  }

  /** A {2, n} tensor of w-byte elements holds twice n * w bytes. */
  lemma TwoRowSize(n: nat, w: nat)
    ensures ShapeSize([2, n]) * w == 2 * (n * w)
  {
    ShapeSize2(2, n);
    assert (2 * n) * w == 2 * (n * w);
  }

  /** The layout test_read_write relies on: a {2, |x|} tensor holds two
      encodings of x, and the |x| elements from element 1 on are the bytes
      from one element width on. */
  lemma TwoRowLayout(x: seq<seq<byte>>, w: nat)
    requires |x| > 0 && Uniform(x, w)
    ensures ShapeSize([2, |x|]) * w == 2 * |Flatten(x)|
    ensures Flatten(x + x) == Flatten(x) + Flatten(x)
    ensures w + |Flatten(x)| <= 2 * |Flatten(x)|
    ensures (Flatten(x) + Flatten(x))[w..w + |Flatten(x)|] == Flatten((x + x)[1..|x| + 1])
  {
    TwoRowSize(|x|, w);
    FlattenLength(x, w);
    DoubledWindow(x);
  }

  /** The layout the copy tests rely on: x fits a {|x|/2, |x|/2} tensor
      exactly when |x| <= (|x|/2)^2. */
  lemma SquareLayout(x: seq<seq<byte>>, w: nat)
    requires w > 0 && Uniform(x, w)
    ensures |Flatten(x)| <= ShapeSize([|x| / 2, |x| / 2]) * w <==> |x| <= (|x| / 2) * (|x| / 2)
  {
    var h := |x| / 2;
    ShapeSize2(h, h);
    FlattenLength(x, w);
    ScaleOrder(|x|, h * h, w);
  }

  /** Two writes of `bytes`, at offset 0 and right after, into a tensor of
      twice their size. */
  method FillTwice(a: HostTensor, bytes: seq<byte>)
    requires a.Valid() && a.buffer.Length == 2 * |bytes|
    modifies a.buffer
    ensures a.buffer[..] == bytes + bytes
  {
    ghost var initial := a.buffer[..];
    var _ := a.Write(bytes, 0);
    var _ := a.Write(bytes, |bytes|);
    WriteTwiceSideBySide(initial, bytes);
  }

  /** A write of `bytes` at offset 0 and the read of the same range. */
  method WriteThenRead(a: HostTensor, bytes: seq<byte>) returns (ok: bool, got: seq<byte>)
    requires a.Valid()
    modifies a.buffer
    ensures ok <==> |bytes| <= a.buffer.Length
    ensures ok ==> got == bytes && a.buffer[..|bytes|] == bytes
  {
    ghost var initial := a.buffer[..];
    var wrote := a.Write(bytes, 0);
    if wrote.Fail? {
      return false, [];
    }
    ReadAfterOverwrite(initial, 0, bytes);
    var read := a.Read(0, |bytes|);
    return true, read.value;
  }

  /** copy_to of the whole of `a` into `b` of the same size. */
  method CopyWhole(a: HostTensor, b: HostTensor)
    requires a.Valid() && b.Valid() && a.buffer.Length == b.buffer.Length
    modifies b.buffer
    ensures b.buffer[..] == old(a.buffer[..])
  {
    ghost var before := b.buffer[..];
    var s := a.GetSizeInBytes();
    var _ := a.CopyTo(b, 0, s);
    assert old(a.buffer[..])[0..s] == old(a.buffer[..]);
    OverwriteWhole(before, old(a.buffer[..]));
  }

  /** test_read_write: two writes of x side by side in a {2, |x|} tensor read
      back as their concatenation, and the |x| elements from element 1 on
      read back as elements 1..|x| of that concatenation. */
  method ReadWriteScenario(backend: BackendKind, et: ElementType, x: seq<seq<byte>>)
    returns (whole: seq<byte>, window: seq<byte>)
    requires |x| > 0 && Uniform(x, ByteWidth(et))
    ensures whole == Flatten(x + x)
    ensures window == Flatten((x + x)[1..|x| + 1])
  {
    var w := ByteWidth(et);
    var a := new HostTensor(backend, et, [2, |x|]);
    var bytes := Flatten(x);
    var nw := |bytes|;
    TwoRowLayout(x, w);
    FillTwice(a, bytes);
    var all := a.Read(0, 2 * nw);
    assert a.buffer[0..2 * nw] == a.buffer[..];
    whole := all.value;
    var part := a.Read(w, nw);
    window := part.value;
  }

  /** test_copy_to_same_backend and test_copy_to_other_backend: x is written
      into a {|x|/2, |x|/2} tensor, the whole tensor is copied to a second one
      of the same shape, and the first |x| elements read back from the copy
      equal those read from the original, whichever backends the two tensors
      belong to.  The first write fails when x does not fit. */
  method CopyToScenario(srcBackend: BackendKind, dstBackend: BackendKind, et: ElementType, x: seq<seq<byte>>)
    returns (ok: bool, original: seq<byte>, copied: seq<byte>)
    requires ByteWidth(et) > 0 && Uniform(x, ByteWidth(et))
    ensures ok <==> |x| <= (|x| / 2) * (|x| / 2)
    ensures ok ==> original == Flatten(x) && copied == Flatten(x)
  {
    var n := |x|;
    var a := new HostTensor(srcBackend, et, [n / 2, n / 2]);
    var b := new HostTensor(dstBackend, et, [n / 2, n / 2]);
    var bytes := Flatten(x);
    var nw := |bytes|;
    SquareLayout(x, ByteWidth(et));
    ok, original := WriteThenRead(a, bytes);
    if !ok {
      return false, [], [];
    }
    CopyWhole(a, b);
    assert b.buffer[0..nw] == bytes;
    var back := b.Read(0, nw);
    copied := back.value;
    ok := true;
  }
}
