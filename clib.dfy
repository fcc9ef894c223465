/** The two C library comparisons the version tables are ordered by. The C
    standard fixes only the sign of their results, so the model returns -1, 0
    or 1. */
module CLib {
  import opened Bytes

  /** `wcscmp`: wide strings compared character by character; a string that
      ends first (its terminator is the smallest character) is the smaller.
      The sequences hold the characters before the terminating NUL. */
  function WideCompare(a: seq<char>, b: seq<char>): (r: int)
    ensures -1 <= r <= 1
    ensures r == 0 <==> a == b
  {
    if a == [] && b == [] then 0
    else if a == [] then -1
    else if b == [] then 1
    else if a[0] < b[0] then -1
    else if b[0] < a[0] then 1
    else
      var rest := WideCompare(a[1..], b[1..]);
      assert rest == 0 <==> a[1..] == b[1..];
      assert a == [a[0]] + a[1..] && b == [b[0]] + b[1..];
      rest
  }

  lemma {:induction false} WideCompareAntisymmetric(a: seq<char>, b: seq<char>)
    ensures WideCompare(a, b) == -WideCompare(b, a)
  {
    if a != [] && b != [] && a[0] == b[0] {
      WideCompareAntisymmetric(a[1..], b[1..]);
    }
  }

  lemma {:induction false} WideCompareTransitive(a: seq<char>, b: seq<char>, c: seq<char>)
    requires WideCompare(a, b) < 0 && WideCompare(b, c) < 0
    ensures WideCompare(a, c) < 0
  {
    if a != [] && b != [] && c != [] && a[0] == b[0] == c[0] {
      WideCompareTransitive(a[1..], b[1..], c[1..]);
    }
  }

  /** The first position where two wide strings differ decides `wcscmp`. */
  lemma {:induction false} WideCompareFirstDifference(a: seq<char>, b: seq<char>, k: nat)
    requires k < |a| && k < |b| && a[..k] == b[..k] && a[k] < b[k]
    ensures WideCompare(a, b) < 0
  {
    if k > 0 {
      assert a[0] == a[..k][0] == b[..k][0] == b[0];
      assert a[1..][..k - 1] == a[1..k] == a[..k][1..];
      assert b[1..][..k - 1] == b[1..k] == b[..k][1..];
      WideCompareFirstDifference(a[1..], b[1..], k - 1);
    }
  }

  /** `memcmp` over two byte blocks of the same length: the first differing
      byte, compared as unsigned, decides. */
  function MemCompare(a: seq<byte>, b: seq<byte>): (r: int)
    requires |a| == |b|
    ensures -1 <= r <= 1
    ensures r == 0 <==> a == b
  {
    if a == [] then 0
    else if a[0] < b[0] then -1
    else if b[0] < a[0] then 1
    else
      var rest := MemCompare(a[1..], b[1..]);
      assert a == [a[0]] + a[1..] && b == [b[0]] + b[1..];
      rest
  }

  lemma {:induction false} MemCompareAntisymmetric(a: seq<byte>, b: seq<byte>)
    requires |a| == |b|
    ensures MemCompare(a, b) == -MemCompare(b, a)
  {
    if a != [] && a[0] == b[0] {
      MemCompareAntisymmetric(a[1..], b[1..]);
    }
  }

  lemma {:induction false} MemCompareTransitive(a: seq<byte>, b: seq<byte>, c: seq<byte>)
    requires |a| == |b| == |c|
    requires MemCompare(a, b) < 0 && MemCompare(b, c) < 0
    ensures MemCompare(a, c) < 0
  {
    if a != [] && a[0] == b[0] == c[0] {
      MemCompareTransitive(a[1..], b[1..], c[1..]);
    }
  }
}
