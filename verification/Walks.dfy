/** What the walk over a decoded window puts into the prepared data. */
module Walks {
  import opened Blocks
  import opened Bytes
  import opened Nonces
  import opened NumberTheory
  import opened Permutations
  import opened Results

  ghost predicate InArea(d: Decoded, size: nat) {
    0 < d.actualBufferSize && d.initialOffset + d.actualBufferSize <= size
  }

  /** The bytes in the order in which the walk reads them. */
  ghost function Prepared(flat: seq<byte>, d: Decoded): (data: seq<byte>)
    requires InArea(d, |flat|)
    ensures |data| == d.actualBufferSize
  {
    seq(d.actualBufferSize, i requires 0 <= i < d.actualBufferSize =>
      flat[d.initialOffset + Index(d.generator, i, d.actualBufferSize)])
  }

  /** Byte i is the one at the i-th multiple of the generator, counted from the offset and around the window. */
  lemma PreparedInOrder(flat: seq<byte>, d: Decoded)
    requires InArea(d, |flat|)
    ensures var data := Prepared(flat, d);
      && |data| == d.actualBufferSize
      && data[0] == flat[d.initialOffset]
      && forall i {:trigger data[i]} :: 0 <= i < |data| ==>
        data[i] == flat[d.initialOffset + (d.generator * i) % d.actualBufferSize]
  {
    WalkSteps(d.generator, 0, d.actualBufferSize);
  }

  ghost function Window(flat: seq<byte>, d: Decoded): (w: seq<byte>)
    requires InArea(d, |flat|)
    ensures |w| == d.actualBufferSize
  {
    flat[d.initialOffset..d.initialOffset + d.actualBufferSize]
  }

  ghost function WalkIndices(g: nat, m: nat): (idx: seq<nat>)
    requires 0 < m
    ensures |idx| == m
  {
    seq(m, i requires 0 <= i < m => Index(g, i, m))
  }

  /** With a coprime generator the walk visits every index exactly once. */
  lemma WalkIsPermutation(g: nat, m: nat)
    requires 0 < m && Gcd(g, m) == 1
    ensures multiset(WalkIndices(g, m)) == multiset(Range(m))
  {
    var idx := WalkIndices(g, m);
    forall i, j | 0 <= i < j < m
      ensures idx[i] != idx[j]
    {
      if idx[i] == idx[j] { WalkIsInjective(g, m, i, j); }
    }
    forall r: nat
      ensures r in idx <==> r in Range(m)
    {
      if r < m {
        var i := WalkReaches(g, m, r);
        assert idx[i] == r && Range(m)[r] == r;
      }
    }
    SameElements(idx, Range(m));
  }

  /** So the prepared data is a rearrangement of the window. */
  lemma PreparedIsPermutation(flat: seq<byte>, d: Decoded)
    requires InArea(d, |flat|) && Gcd(d.generator, d.actualBufferSize) == 1
    ensures multiset(Prepared(flat, d)) == multiset(Window(flat, d))
  {
    var w, m := Window(flat, d), d.actualBufferSize;
    WalkIsPermutation(d.generator, m);
    SelectPermutation(w, WalkIndices(d.generator, m), Range(m));
    assert Prepared(flat, d) == Select(w, WalkIndices(d.generator, m));
    assert w == Select(w, Range(m));
  }

  /** Equal prepared data means equal bytes wherever the walk has been. */
  lemma PreparedAgrees(a: seq<byte>, b: seq<byte>, d: Decoded)
    requires |a| == |b| && InArea(d, |a|)
    ensures Prepared(a, d) == Prepared(b, d) <==> forall k :: 0 <= k < |a| && Reads(d, k) ==> a[k] == b[k]
  {
    var g, m := d.generator, d.actualBufferSize;
    if Prepared(a, d) == Prepared(b, d) {
      forall k | 0 <= k < |a| && Reads(d, k)
        ensures a[k] == b[k]
      {
        var i: nat :| 0 <= i < m && Index(g, i, m) == k - d.initialOffset;
        assert Prepared(a, d)[i] == Prepared(b, d)[i];
      }
    }
    if forall k :: 0 <= k < |a| && Reads(d, k) ==> a[k] == b[k] {
      forall i | 0 <= i < m
        ensures Prepared(a, d)[i] == Prepared(b, d)[i]
      {
        assert Reads(d, d.initialOffset + Index(g, i, m));
      }
    }
  }

  /** The prepared data pins down the window: no two images with different windows prepare alike. */
  ghost predicate Binding(d: Decoded)
    requires InArea(d, d.bufferSize)
  {
    forall a: seq<byte>, b: seq<byte> :: |a| == d.bufferSize && |b| == d.bufferSize ==>
      Prepared(a, d) == Prepared(b, d) ==> Window(a, d) == Window(b, d)
  }

  lemma BindingWhenCoprime(a: seq<byte>, b: seq<byte>, d: Decoded)
    requires |a| == |b| && InArea(d, |a|) && Gcd(d.generator, d.actualBufferSize) == 1
    requires Prepared(a, d) == Prepared(b, d)
    ensures Window(a, d) == Window(b, d)
  {
    PreparedAgrees(a, b, d);
    forall r: nat | r < d.actualBufferSize
      ensures Window(a, d)[r] == Window(b, d)[r]
    {
      FullWalkReads(d, d.initialOffset + r);
    }
  }

  /** Prepared data pins down the window exactly when generator and window size are coprime. */
  lemma BindingIffCoprime(d: Decoded)
    requires InArea(d, d.bufferSize)
    ensures Binding(d) <==> Gcd(d.generator, d.actualBufferSize) == 1
  {
    var g, m := d.generator, d.actualBufferSize;
    if Gcd(g, m) == 1 {
      forall a: seq<byte>, b: seq<byte> | |a| == d.bufferSize && |b| == d.bufferSize && Prepared(a, d) == Prepared(b, d)
        ensures Window(a, d) == Window(b, d)
      {
        BindingWhenCoprime(a, b, d);
      }
    } else {
      CoversWindow(g, m);
      var r: nat :| r < m && r !in Visited(g, m);
      var a := seq(d.bufferSize, _ => 0 as byte);
      var b := a[d.initialOffset + r := 1];
      PreparedAgrees(a, b, d);
      assert Window(a, d)[r] != Window(b, d)[r];
    }
  }

  /** For every nonce of every version: prepared data pins down the window exactly on the full-walk sizes. */
  lemma DecodedIsBinding(v: Version, areaLabel: uint16, size: uint32, nonce: seq<byte>)
    requires NonceFits(v, size, nonce) && Decodable(v, size)
    ensures InArea(Interpret(v, areaLabel, size, nonce), size)
    ensures Binding(Interpret(v, areaLabel, size, nonce)) <==> WalksFully(v, size)
  {
    WindowInsideArea(v, areaLabel, size, nonce);
    GeneratorIsCoprime(v, areaLabel, size, nonce);
    BindingIffCoprime(Interpret(v, areaLabel, size, nonce));
  }

  /** What preparation leaves in the table when the nonce decodes. */
  ghost function PreparedFor(v: Version, view: seq<AreaInfo>, nonce: seq<byte>, img: Image): seq<byte>
    requires CanDecode(v, view, nonce) && Succeeds(v, view, nonce)
  {
    WindowInsideArea(v, Selected(view, nonce).areaLabel, SelectedSize(v, view, nonce), nonce);
    Prepared(Flatten(Selected(view, nonce).blocks, img), Expected(v, view, nonce))
  }

  /** A nonce, if one is set, can be decoded into a defined window (version 1 has none below size 2). */
  ghost predicate CanPrepare(v: Version, view: seq<AreaInfo>, nonce: Option<seq<byte>>) {
    HasNonce(nonce) ==> CanDecode(v, view, nonce.value) && (v == V1 ==> Succeeds(v, view, nonce.value))
  }

  predicate HasNonce(nonce: Option<seq<byte>>) {
    nonce.Some? && nonce.value != []
  }

  /** How preparation ends, and what it leaves in the table where `before` was. */
  ghost function Outcome(v: Version, view: seq<AreaInfo>, nonce: Option<seq<byte>>, img: Image,
                         before: Option<seq<byte>>): (RaResult, Option<seq<byte>>)
    requires CanPrepare(v, view, nonce)
  {
    if !HasNonce(nonce) then (ErrorUndefinedParameters, None)
    else if Succeeds(v, view, nonce.value) then (Success, Some(PreparedFor(v, view, nonce.value, img)))
    else (ErrorGeneric, before)
  }
}
