/** permutations of bindings/python/rad_util.py. */
module Permutations {
  import opened Graphs

  function Insert<T>(s: seq<T>, i: nat, x: T): seq<T>
    requires i <= |s|
  {
    s[..i] + [x] + s[i..]
  }

  /** x inserted at the first n positions of s. */
  function InsertAll<T>(s: seq<T>, x: T, n: nat): (r: seq<seq<T>>)
    requires n <= |s| + 1
    ensures |r| == n && forall i :: 0 <= i < n ==> r[i] == Insert(s, i, x)
  {
    if n == 0 then [] else InsertAll(s, x, n - 1) + [Insert(s, n - 1, x)]
  }

  /** x inserted at every position of every list. */
  function InsertEach<T>(ss: seq<seq<T>>, x: T): seq<seq<T>> {
    if ss == [] then [] else
    var s := ss[|ss| - 1];
    InsertEach(ss[..|ss| - 1], x) + InsertAll(s, x, |s| + 1)
  }

  function Perms<T>(s: seq<T>): seq<seq<T>>
    decreases |s|
  {
    if |s| <= 1 then [s] else InsertEach(Perms(s[1..]), s[0])
  }

  ghost predicate AllOfLength<T>(ss: seq<seq<T>>, n: nat) {
    forall k :: 0 <= k < |ss| ==> |ss[k]| == n
  }

  lemma {:induction false} InsertEachLength<T>(ss: seq<seq<T>>, x: T, n: nat)
    requires AllOfLength(ss, n)
    ensures AllOfLength(InsertEach(ss, x), n + 1)
  {
    if ss != [] {
      InsertEachLength(ss[..|ss| - 1], x, n);
    }
  }

  lemma {:induction false} PermsLength<T>(s: seq<T>)
    ensures AllOfLength(Perms(s), |s|)
    decreases |s|
  {
    if |s| > 1 {
      PermsLength(s[1..]);
      InsertEachLength(Perms(s[1..]), s[0], |s| - 1);
    }
  }

  lemma InsertEachSnoc<T>(ss: seq<seq<T>>, s: seq<T>, x: T)
    ensures InsertEach(ss + [s], x) == InsertEach(ss, x) + InsertAll(s, x, |s| + 1)
  {
    assert (ss + [s])[..|ss|] == ss;
  }

  /** The inner loop. */
  method InsertEverywhere<T>(sub: seq<T>, item: T, n: nat) returns (out: seq<seq<T>>)
    requires n <= |sub| + 1
    ensures out == InsertAll(sub, item, n)
  {
    out := [];
    for i := 0 to n
      invariant out == InsertAll(sub, item, i)
    {
      out := out + [sub[..i] + [item] + sub[i..]];
    }
  }

  /** The outer loop. */
  method InsertItem<T>(subs: seq<seq<T>>, item: T, n: nat) returns (out: seq<seq<T>>)
    requires n > 0 && AllOfLength(subs, n - 1)
    ensures out == InsertEach(subs, item)
  {
    out := [];
    for k := 0 to |subs|
      invariant out == InsertEach(subs[..k], item)
    {
      var sub := subs[k];
      var more := InsertEverywhere(sub, item, n);
      InsertEachSnoc(subs[..k], sub, item);
      assert subs[..k + 1] == subs[..k] + [sub];
      out := out + more;
    }
    assert subs[..|subs|] == subs;
  }

  method Permute<T>(input: seq<T>) returns (out: seq<seq<T>>)
    ensures out == Perms(input)
    decreases |input|
  {
    if |input| <= 1 {
      return [input];
    }
    var subs := Permute(input[1..]);
    PermsLength(input[1..]);
    out := InsertItem(subs, input[0], |input|);
  }

  // ---------- how many ----------

  function Factorial(n: nat): nat {
    if n == 0 then 1 else n * Factorial(n - 1)
  }

  lemma FactorialStep(n: nat)
    ensures Factorial(n + 1) == (n + 1) * Factorial(n)
  {
  }

  lemma {:induction false} InsertEachCount<T>(ss: seq<seq<T>>, x: T, n: nat)
    requires AllOfLength(ss, n)
    ensures |InsertEach(ss, x)| == (n + 1) * |ss|
  {
    if ss != [] {
      InsertEachCount(ss[..|ss| - 1], x, n);
      assert (n + 1) * (|ss| - 1) + (n + 1) == (n + 1) * |ss|;
    }
  }

  lemma {:induction false} CountIsFactorial<T>(s: seq<T>)
    ensures |Perms(s)| == Factorial(|s|)
    decreases |s|
  {
    if |s| <= 1 {
      SmallFactorials();
    } else {
      var n := |s| - 1;
      CountIsFactorial(s[1..]);
      PermsCount(s, Factorial(n));
      FactorialStep(n);
    }
  }

  lemma PermsCount<T>(s: seq<T>, n: nat)
    requires |s| > 1 && |Perms(s[1..])| == n
    ensures |Perms(s)| == |s| * n
  {
    PermsLength(s[1..]);
    InsertEachCount(Perms(s[1..]), s[0], |s| - 1);
  }

  lemma SmallFactorials()
    ensures Factorial(0) == 1 && Factorial(1) == 1
  {
    assert Factorial(1) == 1 * Factorial(0);
  }

  // ---------- which ----------

  lemma InInsertAll<T>(s: seq<T>, x: T, n: nat, p: seq<T>)
    requires n <= |s| + 1
    ensures p in InsertAll(s, x, n) <==> exists i :: 0 <= i < n && p == Insert(s, i, x)
  {
    if i :| 0 <= i < n && p == Insert(s, i, x) {
      assert InsertAll(s, x, n)[i] == p;
    }
  }

  /** p arises from one of the lists by inserting x somewhere. */
  ghost predicate Inserted<T>(ss: seq<seq<T>>, x: T, p: seq<T>) {
    exists k, i :: 0 <= k < |ss| && 0 <= i <= |ss[k]| && p == Insert(ss[k], i, x)
  }

  lemma InsertedSnoc<T>(ss: seq<seq<T>>, s: seq<T>, x: T, p: seq<T>)
    ensures Inserted(ss + [s], x, p) <==> Inserted(ss, x, p) || exists i :: 0 <= i < |s| + 1 && p == Insert(s, i, x)
  {
    var all := ss + [s];
    if k, i :| 0 <= k < |ss| && 0 <= i <= |ss[k]| && p == Insert(ss[k], i, x) {
      assert p == Insert(all[k], i, x);
    }
    if i :| 0 <= i < |s| + 1 && p == Insert(s, i, x) {
      assert p == Insert(all[|ss|], i, x);
    }
  }

  lemma {:induction false} InInsertEach<T>(ss: seq<seq<T>>, x: T, p: seq<T>)
    ensures p in InsertEach(ss, x) <==> Inserted(ss, x, p)
  {
    if ss != [] {
      var before, s := ss[..|ss| - 1], ss[|ss| - 1];
      InInsertEach(before, x, p);
      InInsertAll(s, x, |s| + 1, p);
      InsertedSnoc(before, s, x, p);
      assert ss == before + [s];
    }
  }

  lemma InsertMultiset<T>(s: seq<T>, i: nat, x: T)
    requires i <= |s|
    ensures multiset(Insert(s, i, x)) == multiset(s) + multiset{x}
  {
    assert s == s[..i] + s[i..];
  }

  lemma {:induction false} Sound<T>(s: seq<T>, p: seq<T>)
    requires p in Perms(s)
    ensures multiset(p) == multiset(s)
    decreases |s|
  {
    if |s| > 1 {
      var subs, x := Perms(s[1..]), s[0];
      InInsertEach(subs, x, p);
      var k, i :| 0 <= k < |subs| && 0 <= i <= |subs[k]| && p == Insert(subs[k], i, x);
      Sound(s[1..], subs[k]);
      InsertMultiset(subs[k], i, x);
      assert s == [x] + s[1..];
    }
  }

  /** A list with the same items and more is one item inserted into another. */
  lemma TakeOut<T>(p: seq<T>, rest: seq<T>, x: T) returns (q: seq<T>, i: nat)
    requires multiset(p) == multiset(rest) + multiset{x}
    ensures i <= |q| && p == Insert(q, i, x) && multiset(q) == multiset(rest) && |q| == |rest|
  {
    assert x in multiset(p);
    i :| 0 <= i < |p| && p[i] == x;
    q := p[..i] + p[i + 1..];
    assert p == Insert(q, i, x);
    InsertMultiset(q, i, x);
    assert multiset(q) == (multiset(q) + multiset{x}) - multiset{x};
    assert multiset(rest) == (multiset(rest) + multiset{x}) - multiset{x};
    assert |q| == |multiset(q)| == |multiset(rest)| == |rest|;
  }

  lemma {:induction false} Complete<T>(s: seq<T>, p: seq<T>)
    requires multiset(p) == multiset(s)
    ensures p in Perms(s)
    decreases |s|
  {
    if |s| <= 1 {
      SmallRearrangement(s, p);
    } else {
      var subs, x := Perms(s[1..]), s[0];
      assert s == [x] + s[1..];
      var q, i := TakeOut(p, s[1..], x);
      Complete(s[1..], q);
      InInsertEach(subs, x, p);
      var k :| 0 <= k < |subs| && subs[k] == q;
      assert i <= |subs[k]| && p == Insert(subs[k], i, x);
    }
  }

  /** The lists returned are exactly the rearrangements of the input. */
  lemma ExactlyRearrangements<T>(s: seq<T>, p: seq<T>)
    ensures p in Perms(s) <==> multiset(p) == multiset(s)
  {
    if p in Perms(s) {
      Sound(s, p);
    }
    if multiset(p) == multiset(s) {
      Complete(s, p);
    }
  }

  lemma SmallRearrangement<T>(s: seq<T>, p: seq<T>)
    requires |s| <= 1
    ensures p == s <==> multiset(p) == multiset(s)
  {
    if multiset(p) == multiset(s) {
      assert |p| == |multiset(p)| == |multiset(s)| == |s|;
      if |s| == 1 {
        assert p[0] in multiset(p) && s == [s[0]] && p == [p[0]];
      }
    }
  }

  // ---------- no repetition ----------

  lemma InsertInjective<T>(a: seq<T>, b: seq<T>, i: nat, j: nat, x: T)
    requires i <= |a| && j <= |b| && x !in a && x !in b && Insert(a, i, x) == Insert(b, j, x)
    ensures i == j && a == b
  {
    var p := Insert(a, i, x);
    assert p[i] == x && p[j] == x;
    assert forall k :: 0 <= k < |p| && k != i ==> p[k] == if k < i then a[k] else a[k - 1];
    assert a == p[..i] + p[i + 1..] && b == p[..j] + p[j + 1..];
  }

  /** Inserting x into b gives none of the lists that inserting x elsewhere gives. */
  lemma NotInserted<T>(ss: seq<seq<T>>, b: seq<T>, j: nat, x: T)
    requires x !in b && b !in ss && j <= |b| && forall k :: 0 <= k < |ss| ==> x !in ss[k]
    ensures !Inserted(ss, x, Insert(b, j, x))
  {
    forall k, i | 0 <= k < |ss| && 0 <= i <= |ss[k]| ensures Insert(b, j, x) != Insert(ss[k], i, x) {
      if Insert(b, j, x) == Insert(ss[k], i, x) {
        InsertInjective(b, ss[k], j, i, x);
      }
    }
  }

  lemma {:induction false} InsertAllDistinct<T>(s: seq<T>, x: T)
    requires x !in s
    ensures Distinct(InsertAll(s, x, |s| + 1))
  {
    var r := InsertAll(s, x, |s| + 1);
    forall i, j | 0 <= i < j < |r| ensures r[i] != r[j] {
      if r[i] == r[j] {
        InsertInjective(s, s, i, j, x);
      }
    }
  }

  lemma {:induction false} InsertEachDistinct<T>(ss: seq<seq<T>>, x: T)
    requires Distinct(ss) && forall k :: 0 <= k < |ss| ==> x !in ss[k]
    ensures Distinct(InsertEach(ss, x))
  {
    if ss != [] {
      var front, s := ss[..|ss| - 1], ss[|ss| - 1];
      var before, last := InsertEach(front, x), InsertAll(s, x, |s| + 1);
      InsertEachDistinct(front, x);
      InsertAllDistinct(s, x);
      forall j | 0 <= j < |last| ensures last[j] !in before {
        NotInserted(front, s, j, x);
        InInsertEach(front, x, last[j]);
      }
      JoinDistinct(before, last);
    }
  }

  /** Different items give different rearrangements. */
  lemma {:induction false} NoRepetition<T>(s: seq<T>)
    requires Distinct(s)
    ensures Distinct(Perms(s))
    decreases |s|
  {
    if |s| > 1 {
      var rest := s[1..];
      NoRepetition(rest);
      forall k | 0 <= k < |Perms(rest)| ensures s[0] !in Perms(rest)[k] {
        ExactlyRearrangements(rest, Perms(rest)[k]);
        assert forall y :: y in Perms(rest)[k] <==> y in multiset(Perms(rest)[k]);
        assert forall y :: y in rest <==> y in multiset(rest);
      }
      InsertEachDistinct(Perms(rest), s[0]);
    }
  }

  // ---------- in which order ----------

  lemma {:induction false} InsertEachAt<T>(ss: seq<seq<T>>, x: T, n: nat, q: nat, i: nat)
    requires AllOfLength(ss, n) && q < |ss| && i <= n
    ensures (n + 1) * q + i < |InsertEach(ss, x)| && InsertEach(ss, x)[(n + 1) * q + i] == Insert(ss[q], i, x)
  {
    var front, s := ss[..|ss| - 1], ss[|ss| - 1];
    InsertEachCount(front, x, n);
    if q < |ss| - 1 {
      InsertEachAt(front, x, n, q, i);
    } else {
      assert |s| == n;
    }
  }

  /** The q-th rearrangement of the rest gives |s| lists in a row: the first item
      moves through it from the front to the back. */
  lemma OrderOfPerms<T>(s: seq<T>, q: nat, i: nat)
    requires |s| > 1 && q < |Perms(s[1..])| && i < |s|
    ensures |Perms(s[1..])[q]| == |s| - 1 && |s| * q + i < |Perms(s)|
    ensures Perms(s)[|s| * q + i] == Insert(Perms(s[1..])[q], i, s[0])
  {
    PermsLength(s[1..]);
    InsertEachAt(Perms(s[1..]), s[0], |s| - 1, q, i);
  }
}
