/** is_rotated of bindings/python/rad_util.py, and rotation as a relation. */
module Rotations {

  ghost predicate RotatedBy<T>(a: seq<T>, b: seq<T>, k: nat) {
    k < |a| && b == a[k..] + a[..k]
  }

  /** b is the non-empty list a read cyclically from some position. */
  ghost predicate Rotated<T>(a: seq<T>, b: seq<T>) {
    exists k: nat :: RotatedBy(a, b, k)
  }

  lemma Reflexive<T>(a: seq<T>)
    requires a != []
    ensures Rotated(a, a)
  {
    assert RotatedBy(a, a, 0);
  }

  lemma Symmetric<T>(a: seq<T>, b: seq<T>)
    requires Rotated(a, b)
    ensures Rotated(b, a)
  {
    var k: nat :| RotatedBy(a, b, k);
    assert RotatedBy(b, a, if k == 0 then 0 else |a| - k);
  }

  lemma TwoParts<T>(a: seq<T>, b: seq<T>, x: seq<T>, y: seq<T>)
    requires a == x + y && b == y + x && a != []
    ensures Rotated(a, b)
  {
    if y == [] {
      assert RotatedBy(a, b, 0);
    } else {
      assert RotatedBy(a, b, |x|);
    }
  }

  /** Three parts read cyclically from the second one, then from the third. */
  lemma ThreeParts<T>(x: seq<T>, y: seq<T>, z: seq<T>)
    requires x + y + z != []
    ensures Rotated(x + y + z, z + (x + y))
    ensures Rotated(x + y + z, y + z + x)
  {
    TwoParts(x + y + z, z + (x + y), x + y, z);
    assert x + y + z == x + (y + z);
    TwoParts(x + y + z, y + z + x, x, y + z);
  }

  lemma ShortTurn<T>(a: seq<T>, b: seq<T>, k: nat, m: nat)
    requires k < |a| && k + m <= |a| && b == a[k..] + a[..k]
    ensures var x, y, z := a[..k], a[k..k + m], a[k + m..]; a == x + y + z && b[m..] + b[..m] == z + (x + y)
  {
    assert b[..m] == a[k..k + m];
    assert b[m..] == a[k + m..] + a[..k];
  }

  lemma LongTurn<T>(a: seq<T>, b: seq<T>, k: nat, m: nat)
    requires k < |a| < k + m && m < |a| && b == a[k..] + a[..k]
    ensures var j := k + m - |a|; var x, y, z := a[..j], a[j..k], a[k..];
      a == x + y + z && b[m..] + b[..m] == y + z + x
  {
    var j := k + m - |a|;
    assert b[..m] == a[k..] + a[..j];
    assert b[m..] == a[j..k];
  }

  lemma Transitive<T>(a: seq<T>, b: seq<T>, c: seq<T>)
    requires Rotated(a, b) && Rotated(b, c)
    ensures Rotated(a, c)
  {
    var k: nat :| RotatedBy(a, b, k);
    var m: nat :| RotatedBy(b, c, m);
    if k + m <= |a| {
      ShortTurn(a, b, k, m);
      ThreeParts(a[..k], a[k..k + m], a[k + m..]);
    } else {
      LongTurn(a, b, k, m);
      var j := k + m - |a|;
      ThreeParts(a[..j], a[j..k], a[k..]);
    }
  }

  datatype Answer = Ok(rotated: bool) | IndexError

  /** The library routine decides rotation; on two empty lists it fails at
      looking up the first item of the second one. */
  method IsRotated<T(==)>(seq1: seq<T>, seq2: seq<T>) returns (r: Answer)
    ensures r.IndexError? <==> seq1 == [] && seq2 == []
    ensures r.Ok? ==> (r.rotated <==> Rotated(seq1, seq2))
  {
    if |seq1| != |seq2| {
      return Ok(false);
    }
    if seq2 == [] {
      return IndexError;
    }
    var startIndexes: seq<nat> := [];
    var headItem := seq2[0];
    for index1 := 0 to |seq1|
      invariant forall i: nat :: i in startIndexes <==> i < index1 && seq1[i] == headItem
    {
      if seq1[index1] == headItem {
        startIndexes := startIndexes + [index1];
      }
    }
    var doubleSeq1 := seq1 + seq1;
    for j := 0 to |startIndexes|
      invariant forall i :: 0 <= i < j ==> !RotatedBy(seq1, seq2, startIndexes[i])
    {
      var index1 := startIndexes[j];
      assert index1 in startIndexes;
      assert doubleSeq1[index1..index1 + |seq1|] == seq1[index1..] + seq1[..index1];
      if doubleSeq1[index1..index1 + |seq1|] == seq2 {
        return Ok(true);
      }
    }
    assert forall k: nat :: RotatedBy(seq1, seq2, k) ==> seq2[0] == seq1[k];
    assert forall k: nat :: k in startIndexes ==> !RotatedBy(seq1, seq2, k);
    return Ok(false);
  }
}
