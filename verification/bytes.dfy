/** Bytes, fixed-width integers, and the two orders on sequences that the other
    modules state their results with: concatenation and subsequence. */
module Bytes {
  type byte = b: nat | b < 256

  const TWO_TO_32: nat := 0x1_0000_0000
  const TWO_TO_64: nat := 0x1_0000_0000_0000_0000

  function Min(a: nat, b: nat): nat { if a <= b then a else b }

  /** How a write_all goes: it fails only with something still to be written. */
  datatype WriteOutcome = Written | FailedAfter(n: nat) {
    predicate Completes(bs: seq<byte>) { Written? || bs == [] }

    function Taken(bs: seq<byte>): (taken: seq<byte>)
      ensures taken <= bs
    {
      if Completes(bs) then bs else bs[..Min(n, |bs| - 1)]
    }
  }

  // ---------- fixed-width integers ----------

  function Pow256(width: nat): nat
  {
    if width == 0 then 1 else 256 * Pow256(width - 1)
  }

  /** The little-endian encoding of n in width bytes. */
  function LeBytes(n: nat, width: nat): (bs: seq<byte>)
    ensures |bs| == width
  {
    if width == 0 then [] else [n % 256] + LeBytes(n / 256, width - 1)
  }

  function LeValue(bs: seq<byte>): nat
  {
    if bs == [] then 0 else bs[0] + 256 * LeValue(bs[1..])
  }

  function BeValue(bs: seq<byte>): nat
  {
    if bs == [] then 0 else 256 * BeValue(bs[..|bs| - 1]) + bs[|bs| - 1]
  }

  lemma PowLimits()
    ensures Pow256(4) == TWO_TO_32 && Pow256(8) == TWO_TO_64
  {
    assert Pow256(2) == 65536 && Pow256(4) == 65536 * Pow256(2);
    assert Pow256(6) == 65536 * Pow256(4) && Pow256(8) == 65536 * Pow256(6);
  }

  lemma {:induction false} LeRoundTrip(n: nat, width: nat)
    requires n < Pow256(width)
    ensures LeValue(LeBytes(n, width)) == n
  {
    if width > 0 {
      LeRoundTrip(n / 256, width - 1);
    }
  }

  lemma SplitByte(high: nat, last: byte)
    ensures (256 * high + last) / 256 == high && (256 * high + last) % 256 == last
  {
  }

  lemma {:induction false} LeBound(bs: seq<byte>)
    ensures LeValue(bs) < Pow256(|bs|)
  {
    if bs != [] {
      LeBound(bs[1..]);
    }
  }

  lemma {:induction false} LeInverse(bs: seq<byte>)
    ensures LeBytes(LeValue(bs), |bs|) == bs
  {
    if bs != [] {
      LeInverse(bs[1..]);
      SplitByte(LeValue(bs[1..]), bs[0]);
      assert LeBytes(LeValue(bs), |bs|) == [bs[0]] + bs[1..];
    }
  }

  /** The big-endian encoding of n in width bytes. */
  function BeBytes(n: nat, width: nat): (bs: seq<byte>)
    ensures |bs| == width
  {
    if width == 0 then [] else BeBytes(n / 256, width - 1) + [n % 256]
  }

  lemma {:induction false} BeRoundTrip(n: nat, width: nat)
    requires n < Pow256(width)
    ensures BeValue(BeBytes(n, width)) == n
  {
    if width > 0 {
      BeRoundTrip(n / 256, width - 1);
      var bs := BeBytes(n, width);
      assert bs[..width - 1] == BeBytes(n / 256, width - 1);
    }
  }

  lemma {:induction false} BeBound(bs: seq<byte>)
    ensures BeValue(bs) < Pow256(|bs|)
  {
    if bs != [] {
      BeBound(bs[..|bs| - 1]);
    }
  }

  lemma {:induction false} BeInverse(bs: seq<byte>)
    ensures BeBytes(BeValue(bs), |bs|) == bs
  {
    if bs != [] {
      var front := bs[..|bs| - 1];
      BeInverse(front);
      SplitByte(BeValue(front), bs[|bs| - 1]);
      assert BeBytes(BeValue(bs), |bs|) == front + [bs[|bs| - 1]];
    }
  }

  // ---------- exclusive or ----------

  function Xor(a: nat, b: nat): nat
  {
    if a == 0 then b else if b == 0 then a else (a + b) % 2 + 2 * Xor(a / 2, b / 2)
  }

  /** Below any power of two that bounds both. */
  lemma {:induction false} XorBound(a: nat, b: nat, bits: nat)
    requires a < Pow2(bits) && b < Pow2(bits)
    ensures Xor(a, b) < Pow2(bits)
  {
    if a != 0 && b != 0 {
      XorBound(a / 2, b / 2, bits - 1);
    }
  }

  function Pow2(bits: nat): nat
  {
    if bits == 0 then 1 else 2 * Pow2(bits - 1)
  }

  lemma {:induction false} XorTwice(a: nat, b: nat)
    ensures Xor(Xor(a, b), b) == a
  {
    if b == 0 || a == 0 {
      XorSelf(b);
    } else {
      XorTwice(a / 2, b / 2);
      XorStep(Xor(a, b), b);
    }
  }

  lemma XorStep(a: nat, b: nat)
    ensures Xor(a, b) == (a + b) % 2 + 2 * Xor(a / 2, b / 2)
  {
  }

  lemma {:induction false} XorSelf(b: nat)
    ensures Xor(b, b) == 0
  {
    if b != 0 {
      XorSelf(b / 2);
    }
  }

  function XorByte(a: byte, b: byte): byte
  {
    assert Pow2(8) == 256;
    XorBound(a, b, 8);
    Xor(a, b)
  }

  // ---------- concatenation ----------

  lemma Within<T>(s: seq<T>, from: nat, n: nat)
    requires from + n <= |s|
    ensures s[from..][..n] == s[from..from + n] && s[from..][n..] == s[from + n..]
  {
  }

  function Concat<T>(parts: seq<seq<T>>): seq<T>
  {
    if parts == [] then [] else parts[0] + Concat(parts[1..])
  }

  lemma {:induction false} ConcatAppend<T>(a: seq<seq<T>>, b: seq<seq<T>>)
    ensures Concat(a + b) == Concat(a) + Concat(b)
  {
    if a == [] {
      assert a + b == b;
    } else {
      assert (a + b)[1..] == a[1..] + b;
      ConcatAppend(a[1..], b);
    }
  }

  lemma ConcatOne<T>(a: seq<seq<T>>, x: seq<T>)
    ensures Concat(a + [x]) == Concat(a) + x
  {
    ConcatAppend(a, [x]);
    assert Concat([x]) == x + Concat([x][1..]) == x;
  }

  lemma Regroup<T>(a: seq<T>, b: seq<T>, c: seq<T>)
    ensures a + (b + c) == (a + b) + c
  {
  }

  lemma TakeOfConcat<T>(a: seq<T>, b: seq<T>, k: nat)
    requires k <= |a| + |b|
    ensures (a + b)[..k] == if k < |a| then a[..k] else a + b[..k - |a|]
  {
  }

  // ---------- order-preserving subsequences ----------

  /** s is t with zero or more elements left out. */
  ghost predicate IsSubseq<T>(s: seq<T>, t: seq<T>)
  {
    || s == []
    || (t != [] && ((s[0] == t[0] && IsSubseq(s[1..], t[1..])) || IsSubseq(s, t[1..])))
  }

  /** With nothing left out, they are equal. */
  lemma {:induction false} SubseqFull<T>(s: seq<T>, t: seq<T>)
    requires IsSubseq(s, t)
    ensures |s| <= |t| && (|s| == |t| ==> s == t)
    decreases |t|
  {
    if s != [] {
      if s[0] == t[0] && IsSubseq(s[1..], t[1..]) {
        SubseqFull(s[1..], t[1..]);
        assert s == [s[0]] + s[1..] && t == [t[0]] + t[1..];
      } else {
        SubseqFull(s, t[1..]);
      }
    }
  }

  lemma {:induction false} SubseqRefl<T>(s: seq<T>)
    ensures IsSubseq(s, s)
  {
    if s != [] {
      SubseqRefl(s[1..]);
    }
  }

  lemma {:induction false} SubseqTail<T>(s: seq<T>, t: seq<T>)
    requires s != [] && IsSubseq(s, t)
    ensures IsSubseq(s[1..], t)
    decreases |t|
  {
    if !(s[0] == t[0] && IsSubseq(s[1..], t[1..])) {
      SubseqTail(s, t[1..]);
    }
  }

  lemma {:induction false} SubseqTrans<T>(r: seq<T>, s: seq<T>, t: seq<T>)
    requires IsSubseq(r, s) && IsSubseq(s, t)
    ensures IsSubseq(r, t)
    decreases |t|
  {
    if r != [] && s != [] {
      if s[0] == t[0] && IsSubseq(s[1..], t[1..]) {
        if r[0] == s[0] && IsSubseq(r[1..], s[1..]) {
          SubseqTrans(r[1..], s[1..], t[1..]);
        } else {
          SubseqTrans(r, s[1..], t[1..]);
        }
      } else {
        SubseqTrans(r, s, t[1..]);
      }
    }
  }

  lemma {:induction false} SubseqConcat<T>(a: seq<T>, b: seq<T>, c: seq<T>, d: seq<T>)
    requires IsSubseq(a, b) && IsSubseq(c, d)
    ensures IsSubseq(a + c, b + d)
    decreases |b|
  {
    if b == [] {
      assert a + c == c && b + d == d;
    } else if a == [] {
      assert a + c == c && (b + d)[1..] == b[1..] + d;
      SubseqConcat(a, b[1..], c, d);
    } else {
      assert (b + d)[1..] == b[1..] + d && (a + c)[1..] == a[1..] + c;
      if a[0] == b[0] && IsSubseq(a[1..], b[1..]) {
        SubseqConcat(a[1..], b[1..], c, d);
      } else {
        SubseqConcat(a, b[1..], c, d);
      }
    }
  }

  lemma SubseqExtend<T>(s: seq<T>, t: seq<T>, more: seq<T>)
    requires IsSubseq(s, t)
    ensures IsSubseq(s, t + more)
  {
    SubseqConcat(s, t, [], more);
    assert s + [] == s;
  }

  lemma SubseqMiddle<T>(before: seq<T>, s: seq<T>, after: seq<T>)
    ensures IsSubseq(s, before + s + after)
  {
    SubseqRefl(s);
    SubseqConcat([], before, s, s);
    assert [] + s == s;
    SubseqExtend(s, before + s, after);
  }

  /** Leaving out whole parts leaves out elements of the concatenation. */
  lemma {:induction false} ConcatSubseq<T>(s: seq<seq<T>>, t: seq<seq<T>>)
    requires IsSubseq(s, t)
    ensures IsSubseq(Concat(s), Concat(t))
    decreases |t|
  {
    if s != [] {
      if s[0] == t[0] && IsSubseq(s[1..], t[1..]) {
        ConcatSubseq(s[1..], t[1..]);
        SubseqRefl(s[0]);
        SubseqConcat(s[0], t[0], Concat(s[1..]), Concat(t[1..]));
      } else {
        ConcatSubseq(s, t[1..]);
        SubseqConcat([], t[0], Concat(s), Concat(t[1..]));
        assert [] + Concat(s) == Concat(s);
      }
    }
  }
}
