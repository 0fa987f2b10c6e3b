/** memcpy and memmove on byte arrays. */
module Memory {
  import opened Framing

  /** memcpy into a buffer, which the copy must not overrun. */
  method Copy(dst: array<Byte>, at: nat, src: seq<Byte>)
    requires at + |src| <= dst.Length
    modifies dst
    ensures dst[..] == old(dst[..at]) + src + old(dst[at + |src|..])
  {
    ghost var s := dst[..];
    CopyStarts(s, at, src);
    var i := 0;
    while i < |src|
      invariant 0 <= i <= |src| && dst[..] == Copied(s, at, src, i)
    {
      CopyStep(s, at, src, i);
      dst[at + i] := src[i];
      assert dst[..] == Copied(s, at, src, i)[at + i := src[i]];
      i := i + 1;
    }
    assert src[..|src|] == src;
  }

  /** The buffer `s` after `i` bytes of `src` were copied to `at`. */
  function Copied(s: seq<Byte>, at: nat, src: seq<Byte>, i: nat): (r: seq<Byte>)
    requires at + |src| <= |s| && i <= |src|
    ensures |r| == |s|
  {
    s[..at] + src[..i] + s[at + i..]
  }

  lemma CopyStarts(s: seq<Byte>, at: nat, src: seq<Byte>)
    requires at + |src| <= |s|
    ensures Copied(s, at, src, 0) == s
  {
  }

  lemma CopyStep(s: seq<Byte>, at: nat, src: seq<Byte>, i: nat)
    requires at + |src| <= |s| && i < |src|
    ensures Copied(s, at, src, i)[at + i := src[i]] == Copied(s, at, src, i + 1)
  {
    var x, y := Copied(s, at, src, i)[at + i := src[i]], Copied(s, at, src, i + 1);
    forall k | 0 <= k < |s| ensures x[k] == y[k] {
      if k < at {
      } else if k <= at + i {
        assert y[k] == src[k - at];
      } else {
        assert y[k] == s[k] && x[k] == s[k];
      }
    }
  }

  /** memmove of the `n` bytes at `at` by `up` places up: from the back, since the two
      regions overlap. */
  method MoveUp(a: array<Byte>, at: nat, n: nat, up: nat)
    requires at + n + up <= a.Length
    modifies a
    ensures a[at + up..at + up + n] == old(a[at..at + n])
    ensures a[..at] == old(a[..at])
  {
    ghost var s := a[..];
    assert Lifted(s, at, n, up, n) == s;
    var i := n;
    while i > 0
      invariant 0 <= i <= n && a[..] == Lifted(s, at, n, up, i)
    {
      i := i - 1;
      LiftStep(s, at, n, up, i);
      a[at + up + i] := a[at + i];
      assert a[..] == Lifted(s, at, n, up, i + 1)[at + up + i := s[at + i]];
    }
    LiftEnds(s, at, n, up);
  }

  /** The buffer `s` once the bytes from `i` on have been moved. */
  ghost function Lifted(s: seq<Byte>, at: nat, n: nat, up: nat, i: nat): (r: seq<Byte>)
    requires at + n + up <= |s| && i <= n
    ensures |r| == |s|
  {
    s[..at + up + i] + s[at + i..at + n] + s[at + up + n..]
  }

  lemma LiftStep(s: seq<Byte>, at: nat, n: nat, up: nat, i: nat)
    requires at + n + up <= |s| && i < n
    ensures Lifted(s, at, n, up, i + 1)[at + i] == s[at + i]
    ensures Lifted(s, at, n, up, i + 1)[at + up + i := s[at + i]] == Lifted(s, at, n, up, i)
  {
    var x, y := Lifted(s, at, n, up, i + 1)[at + up + i := s[at + i]], Lifted(s, at, n, up, i);
    forall k | 0 <= k < |s| ensures x[k] == y[k] {
      if k < at + up + i {
      } else if k < at + up + n {
        assert y[k] == s[k - up];
      } else {
        assert y[k] == s[k] && x[k] == s[k];
      }
    }
  }

  lemma LiftEnds(s: seq<Byte>, at: nat, n: nat, up: nat)
    requires at + n + up <= |s|
    ensures Lifted(s, at, n, up, 0)[at + up..at + up + n] == s[at..at + n] && Lifted(s, at, n, up, 0)[..at] == s[..at]
  {
  }
}
