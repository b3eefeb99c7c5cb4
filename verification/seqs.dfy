/** Sequence helpers shared by the bounded buffers of the model (the dashboard's
    sample buffer, the client's inspect log, the terminal log) and the
    inspector's newest-first ordering. */
module Seqs {

  /** The last `n` elements of `s`, or all of `s` when it is shorter: JavaScript's
      a.slice(-n) for n >= 1, and Go's s[len(s)-n:] guarded by len(s) > n. */
  function KeepLast<T>(s: seq<T>, n: nat): (r: seq<T>)
    ensures |r| == if |s| <= n then |s| else n
    ensures r == s[|s| - |r|..]
  {
    if |s| <= n then s else s[|s| - n..]
  }

  /** Trimming after every append is the same as trimming the whole history once:
      a buffer kept by append-then-trim holds the newest `n` items ever added. */
  lemma KeepLastAppend<T>(s: seq<T>, x: T, n: nat)
    ensures KeepLast(KeepLast(s, n) + [x], n) == KeepLast(s + [x], n)
  {
    var k := KeepLast(s, n);
    if |s| > n {
      assert k + [x] == (s + [x])[|s| - n..];
      assert (k + [x])[|k + [x]| - n..] == (s + [x])[|s| + 1 - n..];
    } else if |s| + 1 > n {
      assert k == s;
    }
  }

  /** Cutting a suffix first does not change the newest `n` items. */
  lemma {:induction false} KeepLastOfSuffix<T>(x: seq<T>, y: seq<T>, n: nat)
    requires |y| <= |x| && y == x[|x| - |y|..]
    requires |y| >= n || |y| == |x|
    ensures KeepLast(y, n) == KeepLast(x, n)
  {
    if |y| == |x| {
      assert y == x;
    } else {
      assert KeepLast(y, n) == y[|y| - n..];
      assert KeepLast(x, n) == x[|x| - n..];
      assert y[|y| - n..] == x[|x| - n..];
    }
  }

  /** Trimming after each append keeps exactly what trimming once at the end would. */
  lemma {:induction false} KeepLastConcat<T>(a: seq<T>, u: seq<T>, n: nat)
    ensures KeepLast(KeepLast(a, n) + u, n) == KeepLast(a + u, n)
  {
    var k := KeepLast(a, n);
    if |a| > n {
      assert k + u == (a + u)[|a + u| - |k + u|..];
      KeepLastOfSuffix(a + u, k + u, n);
    } else {
      assert k == a;
    }
  }

  /** `s` in reverse order (JavaScript's a.reverse(), applied to a fresh array). */
  function Reverse<T>(s: seq<T>): (r: seq<T>)
    ensures |r| == |s|
    ensures forall i :: 0 <= i < |s| ==> r[i] == s[|s| - 1 - i]
  {
    if |s| == 0 then [] else Reverse(s[1..]) + [s[0]]
  }

  /** Reversal is its own inverse. */
  lemma ReverseReverse<T>(s: seq<T>)
    ensures Reverse(Reverse(s)) == s
  {
    var r := Reverse(Reverse(s));
    assert forall i :: 0 <= i < |s| ==> r[i] == s[i];
  }
}
