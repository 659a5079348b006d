/** Comparison of string pieces: the code's three-way comparison and operators,
    over the byte-wise comparison of the C library, against the dictionary order
    they are meant to implement. */
module StringPieces {

  type byte = x: int | 0 <= x < 0x100

  /** A piece is the bytes it points at, embedded zeros included. */
  type Piece = seq<byte>

  // ----- As the code computes it -----

  /** memcmp over the first n bytes: the sign of the first difference. */
  function Memcmp(a: Piece, b: Piece, n: nat): int
    requires n <= |a| && n <= |b|
  {
    if n == 0 then 0
    else if a[0] != b[0] then a[0] as int - b[0] as int
    else Memcmp(a[1..], b[1..], n - 1)
  }

  function Shorter(a: Piece, b: Piece): (n: nat)
    ensures n <= |a| && n <= |b| && (n == |a| || n == |b|)
  {
    if |a| < |b| then |a| else |b|
  }

  function Compare(a: Piece, b: Piece): int {
    var r := Memcmp(a, b, Shorter(a, b));
    if r != 0 then r else if |a| < |b| then -1 else if |a| > |b| then 1 else 0
  }

  predicate Equal(a: Piece, b: Piece) {
    |a| == |b| && Memcmp(a, b, |a|) == 0
  }

  predicate Less(a: Piece, b: Piece) {
    var r := Memcmp(a, b, Shorter(a, b)); r < 0 || (r == 0 && |a| < |b|)
  }

  predicate LessEqual(a: Piece, b: Piece) {
    var r := Memcmp(a, b, Shorter(a, b)); r < 0 || (r == 0 && |a| <= |b|)
  }

  predicate GreaterEqual(a: Piece, b: Piece) {
    var r := Memcmp(a, b, Shorter(a, b)); r > 0 || (r == 0 && |a| >= |b|)
  }

  predicate Greater(a: Piece, b: Piece) {
    var r := Memcmp(a, b, Shorter(a, b)); r > 0 || (r == 0 && |a| > |b|)
  }

  predicate StartsWith(a: Piece, x: Piece) {
    |a| >= |x| && Memcmp(a, x, |x|) == 0
  }

  // ----- What it means -----

  /** a comes before b in the dictionary: they agree up to some place k, where a
      has ended or has the smaller byte. */
  ghost predicate Before(a: Piece, b: Piece) {
    exists k: nat :: BeforeAt(a, b, k)
  }

  predicate BeforeAt(a: Piece, b: Piece, k: nat) {
    k <= |a| && k < |b| && a[..k] == b[..k] && (k == |a| || a[k] < b[k])
  }

  /** memcmp finds no difference exactly when there is none, and otherwise the
      first one decides. */
  lemma {:induction false} MemcmpMeaning(a: Piece, b: Piece, n: nat) returns (k: nat)
    requires n <= |a| && n <= |b|
    ensures k <= n && a[..k] == b[..k]
    ensures Memcmp(a, b, n) == 0 <==> k == n
    ensures k < n ==> a[k] != b[k] && Memcmp(a, b, n) == a[k] as int - b[k] as int
  {
    if n == 0 {
      k := 0;
    } else if a[0] != b[0] {
      k := 0;
    } else {
      var j := MemcmpMeaning(a[1..], b[1..], n - 1);
      k := j + 1;
      assert a[..k] == [a[0]] + a[1..][..j] && b[..k] == [b[0]] + b[1..][..j];
    }
  }

  /** The three-way comparison decides the dictionary order. */
  lemma CompareDecides(a: Piece, b: Piece)
    ensures Compare(a, b) < 0 <==> Before(a, b)
    ensures Compare(a, b) == 0 <==> a == b
    ensures Compare(a, b) > 0 <==> Before(b, a)
  {
    var n := Shorter(a, b);
    var k := MemcmpMeaning(a, b, n);
    if k < n {
      assert BeforeAt(a, b, k) || BeforeAt(b, a, k);
    } else if |a| < |b| {
      assert BeforeAt(a, b, k);
    } else if |b| < |a| {
      assert BeforeAt(b, a, k);
    } else {
      assert a == a[..k] == b[..k] == b;
    }
    if Before(a, b) {
      BeforeIsAsymmetric(a, b);
    }
    if Before(b, a) {
      BeforeIsAsymmetric(b, a);
    }
  }

  lemma BeforeIsAsymmetric(a: Piece, b: Piece)
    requires Before(a, b)
    ensures !Before(b, a) && a != b
  {
  }

  /** The five operators are the signs of the three-way comparison. */
  lemma OperatorsAgree(a: Piece, b: Piece)
    ensures Equal(a, b) <==> Compare(a, b) == 0
    ensures Less(a, b) <==> Compare(a, b) < 0
    ensures LessEqual(a, b) <==> Compare(a, b) <= 0
    ensures GreaterEqual(a, b) <==> Compare(a, b) >= 0
    ensures Greater(a, b) <==> Compare(a, b) > 0
  {
  }

  lemma BeforeIsTransitive(a: Piece, b: Piece, c: Piece)
    requires Before(a, b) && Before(b, c)
    ensures Before(a, c)
  {
    var i: nat :| BeforeAt(a, b, i);
    var j: nat :| BeforeAt(b, c, j);
    var k := if i < j then i else j;
    assert a[..k] == a[..i][..k] && b[..k] == b[..i][..k] == b[..j][..k] && c[..k] == c[..j][..k];
    if i < j {
      assert b[..j][i] == c[..j][i];
    } else if j < i {
      assert a[..i][j] == b[..i][j];
    }
    assert BeforeAt(a, c, k);
  }

  /** The operator <= is a total order on byte strings. */
  lemma LessEqualIsATotalOrder(a: Piece, b: Piece, c: Piece)
    ensures LessEqual(a, a)
    ensures LessEqual(a, b) || LessEqual(b, a)
    ensures LessEqual(a, b) && LessEqual(b, a) ==> a == b
    ensures LessEqual(a, b) && LessEqual(b, c) ==> LessEqual(a, c)
  {
    CompareDecides(a, a);
    CompareDecides(a, b);
    CompareDecides(b, a);
    CompareDecides(b, c);
    CompareDecides(a, c);
    if Before(a, b) && Before(b, c) {
      BeforeIsTransitive(a, b, c);
    }
  }

  lemma StartsWithMeaning(a: Piece, x: Piece)
    ensures StartsWith(a, x) <==> x <= a
  {
    if |a| >= |x| {
      var k := MemcmpMeaning(a, x, |x|);
      if k < |x| {
        assert a[k] != x[k];
      } else {
        assert x == x[..k] == a[..k];
      }
    }
  }

  /** The pieces with a given prefix are an interval of the order: whatever lies
      between two of them has the prefix too. */
  lemma PrefixIsConvex(x: Piece, low: Piece, mid: Piece, high: Piece)
    requires StartsWith(low, x) && StartsWith(high, x)
    requires LessEqual(low, mid) && LessEqual(mid, high)
    ensures StartsWith(mid, x)
  {
    StartsWithMeaning(low, x);
    StartsWithMeaning(mid, x);
    StartsWithMeaning(high, x);
    CompareDecides(low, mid);
    CompareDecides(mid, high);
    if low != mid && mid != high {
      var i: nat :| BeforeAt(low, mid, i);
      var j: nat :| BeforeAt(mid, high, j);
      // The second difference cannot lie inside the prefix without the first one,
      // and the first one cannot at all, as low and high agree there.
      if |x| <= i {
        assert x == low[..i][..|x|] == mid[..i][..|x|];
      }
    }
  }
}
