/** binary_range, int2bin, bin2int and gray_encode of
    bindings/python/rad_util.py. */
module BinaryCodes {
  import opened Basics

  function Pow2(n: nat): nat {
    if n == 0 then 1 else 2 * Pow2(n - 1)
  }

  function Bit(b: nat): char {
    if b == 0 then '0' else '1'
  }

  function BitValue(c: char): nat {
    if c == '1' then 1 else 0
  }

  predicate IsBinary(s: string) {
    forall c :: c in s ==> c == '0' || c == '1'
  }

  /** bin2int: Python's int(s, 2). */
  function Bin2Int(s: string): nat {
    if s == [] then 0 else 2 * Bin2Int(s[..|s| - 1]) + BitValue(s[|s| - 1])
  }

  /** The k-th binary number of the given width, most significant bit first. */
  function Binary(k: nat, bits: nat): (s: string)
    ensures |s| == bits
  {
    if bits == 0 then "" else Binary(k / 2, bits - 1) + [Bit(k % 2)]
  }

  lemma Bin2IntSnoc(s: string, c: char)
    ensures Bin2Int(s + [c]) == 2 * Bin2Int(s) + BitValue(c)
  {
    assert (s + [c])[..|s|] == s;
  }

  lemma {:induction false} BinaryReadsBack(k: nat, bits: nat)
    ensures IsBinary(Binary(k, bits))
    ensures k < Pow2(bits) ==> Bin2Int(Binary(k, bits)) == k
  {
    if bits > 0 {
      var front, last := Binary(k / 2, bits - 1), Bit(k % 2);
      BinaryReadsBack(k / 2, bits - 1);
      Bin2IntSnoc(front, last);
      assert Binary(k, bits) == front + [last];
      assert k < Pow2(bits) ==> k / 2 < Pow2(bits - 1);
    }
  }

  lemma Halves(m: nat, b: nat)
    requires b < 2
    ensures (2 * m + b) / 2 == m && (2 * m + b) % 2 == b
  {
  }

  lemma BinarySnoc(m: nat, b: nat, bits: nat)
    requires b < 2
    ensures Binary(2 * m + b, bits + 1) == Binary(m, bits) + [Bit(b)]
  {
    Halves(m, b);
  }

  /** The string is the binary number of its value. */
  ghost predicate Reads(s: string) {
    Bin2Int(s) < Pow2(|s|) && Binary(Bin2Int(s), |s|) == s
  }

  lemma ReadsSnoc(front: string, c: char)
    requires Reads(front) && (c == '0' || c == '1')
    ensures Reads(front + [c])
  {
    var v, b, n := Bin2Int(front), BitValue(c), |front|;
    Bin2IntSnoc(front, c);
    BinarySnoc(v, b, n);
    assert |front + [c]| == n + 1 && Bit(b) == c && Pow2(n + 1) == 2 * Pow2(n);
  }

  lemma {:induction false} BinaryOfValue(s: string)
    requires IsBinary(s)
    ensures Bin2Int(s) < Pow2(|s|) && Binary(Bin2Int(s), |s|) == s
  {
    if s == [] {
      assert Reads(s);
    } else {
      var front, c := s[..|s| - 1], s[|s| - 1];
      assert c in s && forall d :: d in front ==> d in s;
      BinaryOfValue(front);
      ReadsSnoc(front, c);
      assert s == front + [c] && Reads(front + [c]);
    }
  }

  // ---------- binary_range ----------

  ghost function Reverse(s: seq<char>): seq<char> {
    if s == [] then [] else Reverse(s[1..]) + [s[0]]
  }

  /** The value of a list of bits, least significant bit first. */
  ghost function Value(v: seq<char>): nat {
    if v == [] then 0 else BitValue(v[0]) + 2 * Value(v[1..])
  }

  lemma {:induction false} ReverseValue(v: seq<char>)
    requires IsBinary(v)
    ensures |Reverse(v)| == |v| && Reverse(v) == Binary(Value(v), |v|) && Value(v) < Pow2(|v|)
  {
    if v != [] {
      assert v[0] in v && forall c :: c in v[1..] ==> c in v;
      ReverseValue(v[1..]);
    }
  }

  lemma {:induction false} ReverseSnoc(s: seq<char>, c: char)
    ensures Reverse(s + [c]) == [c] + Reverse(s)
  {
    if s != [] {
      assert (s + [c])[1..] == s[1..] + [c];
      ReverseSnoc(s[1..], c);
    }
  }

  /** A copy of v with the order of its entries reversed. */
  method Reversed(v: array<char>) returns (r: seq<char>)
    ensures r == Reverse(v[..])
  {
    r := [];
    for i := 0 to v.Length
      invariant r == Reverse(v[..i])
    {
      ReverseSnoc(v[..i], v[i]);
      assert v[..i + 1] == v[..i] + [v[i]];
      r := [v[i]] + r;
    }
    assert v[..v.Length] == v[..];
  }

  /** Clearing the leading ones of v, and setting the zero after them. */
  lemma {:induction false} Carry(v: seq<char>, w: seq<char>, i: nat)
    requires |v| == |w| && i <= |v|
    requires forall k :: 0 <= k < i ==> v[k] == '1' && w[k] == '0'
    requires i < |v| ==> v[i] == '0' && w[i] == '1'
    requires forall k :: i < k < |v| ==> w[k] == v[k]
    ensures if i < |v| then Value(w) == Value(v) + 1 else Value(w) == 0 && Value(v) + 1 == Pow2(|v|)
    decreases i
  {
    if i > 0 {
      Carry(v[1..], w[1..], i - 1);
    } else if v != [] {
      assert v[1..] == w[1..];
    }
  }

  /** One increment with the toggle list: the result tells whether the counter
      has wrapped around. */
  method Increment(v: array<char>, toggle: array<int>)
    requires toggle.Length == v.Length + 1 && IsBinary(v[..])
    requires toggle[0] == 1 && forall k :: 1 <= k < toggle.Length ==> toggle[k] == 0
    modifies v, toggle
    ensures IsBinary(v[..])
    ensures v.Length > 0 ==> toggle[v.Length] == if old(Value(v[..])) + 1 == Pow2(v.Length) then 1 else 0
    ensures v.Length > 0 ==> Value(v[..]) == if toggle[v.Length] == 1 then 0 else old(Value(v[..])) + 1
  {
    ghost var before := v[..];
    var i := 0;
    while i < v.Length && toggle[i] == 1
      invariant i <= v.Length && (toggle[i] == 0 || toggle[i] == 1)
      invariant toggle[i] == 1 ==> forall k :: 0 <= k < i ==> before[k] == '1' && v[k] == '0'
      invariant toggle[i] == 1 ==> forall k :: i <= k < v.Length ==> v[k] == before[k]
      invariant toggle[i] == 0 ==> i > 0 && before[i - 1] == '0' && v[i - 1] == '1'
      invariant toggle[i] == 0 ==> forall k :: 0 <= k < i - 1 ==> before[k] == '1' && v[k] == '0'
      invariant toggle[i] == 0 ==> forall k :: i <= k < v.Length ==> v[k] == before[k]
      invariant forall k :: i < k < toggle.Length ==> toggle[k] == 0
    {
      assert before[i] in before;
      if v[i] == '0' {
        v[i] := '1';
        toggle[i + 1] := 0;
      } else {
        v[i] := '0';
        toggle[i + 1] := 1;
      }
      i := i + 1;
    }
    forall k | 0 <= k < v.Length ensures v[k] == '0' || v[k] == '1' {
      assert before[k] in before;
    }
    if toggle[i] == 1 {
      Carry(before, v[..], i);
    } else {
      Carry(before, v[..], i - 1);
      ReverseValue(v[..]);
    }
  }

  /** All binary numbers of the given width, in order.  For width 0 the loop
      does not run at all. */
  method BinaryRange(bits: nat) returns (l: seq<string>)
    ensures bits == 0 ==> l == []
    ensures bits > 0 ==> |l| == Pow2(bits) && forall k :: 0 <= k < |l| ==> l[k] == Binary(k, bits)
  {
    l := [];
    var v := new char[bits](_ => '0');
    var toggle := new int[bits + 1](i => if i == 0 then 1 else 0);
    ZeroValue(v[..]);
    while toggle[bits] != 1
      invariant v.Length == bits && toggle.Length == bits + 1 && IsBinary(v[..]) && fresh(v) && fresh(toggle)
      invariant bits == 0 ==> toggle[bits] == 1 && l == []
      invariant toggle[bits] != 1 ==> Value(v[..]) == |l| && |l| < Pow2(bits)
      invariant bits > 0 && toggle[bits] == 1 ==> |l| == Pow2(bits)
      invariant bits > 0 ==> forall k :: 0 <= k < |l| ==> l[k] == Binary(k, bits)
      decreases if toggle[bits] == 1 then 0 else 1 + Pow2(bits) - |l|
    {
      var vCopy := Reversed(v);
      ReverseValue(v[..]);
      l := l + [vCopy];
      toggle := new int[bits + 1](i => if i == 0 then 1 else 0);
      Increment(v, toggle);
      ReverseValue(v[..]);
    }
  }

  lemma {:induction false} ZeroValue(v: seq<char>)
    requires forall k :: 0 <= k < |v| ==> v[k] == '0'
    ensures Value(v) == 0 && Pow2(|v|) > 0
  {
    if v != [] {
      ZeroValue(v[1..]);
    }
  }

  // ---------- int2bin ----------

  /** The hexadecimal digits of i, each as its four bits. */
  function Nibbles(i: nat): string {
    if i < 16 then Binary(i, 4) else Nibbles(i / 16) + Binary(i % 16, 4)
  }

  function Zeros(n: nat): string {
    seq(n, i => '0')
  }

  /** Keep the last n characters; an error if that drops a one; pad with zeros.
      A width of 0 keeps everything. */
  function Int2Bin(i: nat, n: nat): Option<string> {
    var result := Nibbles(i);
    if n == 0 then Some(result)
    else if n <= |result| then
      if '1' in result[..|result| - n] then None else Some(result[|result| - n..])
    else Some(Zeros(n - |result|) + result)
  }

  lemma Pow2Of4()
    ensures Pow2(4) == 16
  {
    assert Pow2(1) == 2 && Pow2(2) == 4 && Pow2(3) == 8;
  }

  lemma {:induction false} NibblesValue(i: nat)
    ensures IsBinary(Nibbles(i)) && Bin2Int(Nibbles(i)) == i
    decreases i
  {
    var digit := Binary(i % 16, 4);
    assert IsBinary(digit) && Bin2Int(digit) == i % 16 by {
      Pow2Of4();
      BinaryReadsBack(i % 16, 4);
    }
    if i >= 16 {
      var high := Nibbles(i / 16);
      NibblesValue(i / 16);
      assert Bin2Int(high + digit) == i / 16 * 16 + i % 16 by {
        Pow2Of4();
        Bin2IntConcat(high, digit);
      }
    }
  }

  lemma Double(a: nat, b: nat)
    ensures 2 * (a * b) == a * (2 * b)
  {
  }

  lemma {:induction false} Bin2IntConcat(a: string, b: string)
    ensures Bin2Int(a + b) == Bin2Int(a) * Pow2(|b|) + Bin2Int(b)
  {
    if b == [] {
      assert a + b == a;
    } else {
      var n := |b| - 1;
      Bin2IntConcat(a, b[..n]);
      assert (a + b)[..|a + b| - 1] == a + b[..n];
      Double(Bin2Int(a), Pow2(n));
      assert Bin2Int(a + b) == 2 * Bin2Int(a + b[..n]) + BitValue(b[n]);
      assert Pow2(|b|) == 2 * Pow2(n);
    }
  }

  lemma {:induction false} Bin2IntBound(s: string)
    ensures Bin2Int(s) < Pow2(|s|)
    ensures Bin2Int(s) == 0 <==> '1' !in s
  {
    if s != [] {
      Bin2IntBound(s[..|s| - 1]);
    }
  }

  /** A one in the head makes the number too large for the tail; otherwise the
      head adds nothing. */
  ghost predicate HeadShows(head: string, tail: string) {
    if '1' in head then Bin2Int(head + tail) >= Pow2(|tail|) else Bin2Int(head + tail) == Bin2Int(tail)
  }

  lemma OneMoreDigit(head: string, front: string, c: char, all: string)
    requires HeadShows(head, front) && all == head + (front + [c])
    ensures HeadShows(head, front + [c])
  {
    var long := head + front;
    assert all == long + [c];
    Bin2IntSnoc(front, c);
    Bin2IntSnoc(long, c);
    assert Pow2(|front + [c]|) == 2 * Pow2(|front|);
  }

  lemma {:induction false} WithHead(head: string, tail: string)
    ensures HeadShows(head, tail)
  {
    if tail == [] {
      assert head + tail == head;
      Bin2IntBound(head);
    } else {
      var front, c := tail[..|tail| - 1], tail[|tail| - 1];
      assert tail == front + [c];
      WithHead(head, front);
      OneMoreDigit(head, front, c, head + (front + [c]));
    }
  }

  /** A number written with a head and a tail fits the tail exactly when the
      head is zero; then the tail alone stands for it. */
  lemma HeadAndTail(head: string, tail: string)
    requires IsBinary(tail)
    ensures Bin2Int(head + tail) < Pow2(|tail|) <==> '1' !in head
    ensures '1' !in head ==> Binary(Bin2Int(head + tail), |tail|) == tail
  {
    WithHead(head, tail);
    BinaryOfValue(tail);
  }

  lemma NoOneInZeros(n: nat)
    ensures '1' !in Zeros(n) && |Zeros(n)| == n
  {
  }

  lemma ZerosAreBinary(r: string, n: nat)
    requires IsBinary(r)
    ensures IsBinary(Zeros(n) + r)
  {
    var z := Zeros(n);
    forall c | c in z + r ensures c == '0' || c == '1' {
      assert c in r || c in z;
    }
  }

  lemma ZerosAddNothing(r: string, n: nat)
    ensures Bin2Int(Zeros(n) + r) == Bin2Int(r)
  {
    NoOneInZeros(n);
    WithHead(Zeros(n), r);
  }

  lemma Padded(r: string, s: string, n: nat)
    requires IsBinary(r) && s == Zeros(n) + r
    ensures Binary(Bin2Int(r), |s|) == s && Bin2Int(r) < Pow2(|s|)
  {
    ZerosAreBinary(r, n);
    BinaryOfValue(s);
    ZerosAddNothing(r, n);
  }

  /** For a positive width int2bin fails exactly when the number does not fit,
      and otherwise gives the binary number that binary_range lists. */
  lemma Int2BinExact(i: nat, n: nat)
    requires n > 0
    ensures Int2Bin(i, n) == if i < Pow2(n) then Some(Binary(i, n)) else None
  {
    var r := Nibbles(i);
    NibblesValue(i);
    if n <= |r| {
      var head, tail := r[..|r| - n], r[|r| - n..];
      assert head + tail == r && |tail| == n;
      assert IsBinary(tail) by { assert forall c :: c in tail ==> c in r; }
      assert Bin2Int(head + tail) == i;
      HeadAndTail(head, tail);
    } else {
      var s := Zeros(n - |r|) + r;
      assert |s| == n;
      Padded(r, s, n - |r|);
    }
  }

  lemma OneNibble(i: nat)
    requires i < 16
    ensures |Nibbles(i)| == 4 && (i > 0 ==> '1' in Nibbles(i))
  {
    NibblesValue(i);
    Bin2IntBound(Nibbles(i));
  }

  /** Whole groups of four bits, of which the first is not zero unless i is. */
  predicate WholeGroups(s: string, i: nat) {
    |s| % 4 == 0 && |s| > 0 && (i > 0 ==> '1' in s[..4])
  }

  lemma OneMoreNibble(high: string, low: string, i: nat)
    requires WholeGroups(high, i) && i > 0 && |low| == 4
    ensures forall j: nat :: WholeGroups(high + low, j)
  {
    assert (high + low)[..4] == high[..4];
  }

  lemma {:induction false} WholeNibbles(i: nat)
    ensures WholeGroups(Nibbles(i), i)
    decreases i
  {
    if i < 16 {
      OneNibble(i);
      assert Nibbles(i)[..4] == Nibbles(i);
    } else {
      WholeNibbles(i / 16);
      OneMoreNibble(Nibbles(i / 16), Binary(i % 16, 4), i / 16);
    }
  }

  /** For width 0 int2bin never fails and cuts nothing off: the result reads back
      as i, in as many whole groups of four bits as i needs. */
  lemma WidthZero(i: nat)
    ensures Int2Bin(i, 0).Some?
    ensures var s := Int2Bin(i, 0).value;
      IsBinary(s) && Bin2Int(s) == i && WholeGroups(s, i)
  {
    NibblesValue(i);
    WholeNibbles(i);
  }

  /** The digits; Bin2IntConcat says the rest about reading. */
  lemma DigitValues()
    ensures Bin2Int("0") == 0 && Bin2Int("1") == 1
  {
    assert "0"[..0] == "" && "1"[..0] == "";
  }

  // ---------- gray_encode ----------

  /** Exclusive or of two bits. */
  function Flip(x: nat, y: nat): nat {
    if x == y then 0 else 1
  }

  /** Bitwise exclusive or of natural numbers. */
  function Xor(a: nat, b: nat): nat
    decreases a + b
  {
    if a == 0 && b == 0 then 0 else 2 * Xor(a / 2, b / 2) + Flip(a % 2, b % 2)
  }

  function GrayEncode(i: nat): nat {
    Xor(i, i / 2)
  }

  /** How many bits of n are set. */
  function Ones(n: nat): nat {
    if n == 0 then 0 else Ones(n / 2) + n % 2
  }

  function GrayDecode(g: nat): nat {
    if g == 0 then 0 else 2 * GrayDecode(g / 2) + Flip(g % 2, GrayDecode(g / 2) % 2)
  }

  lemma XorStep(a: nat, b: nat, x: nat, y: nat)
    requires x < 2 && y < 2
    ensures Xor(2 * a + x, 2 * b + y) == 2 * Xor(a, b) + Flip(x, y)
  {
    Halves(a, x);
    Halves(b, y);
  }

  lemma GrayStep(m: nat, b: nat)
    requires b < 2
    ensures GrayEncode(2 * m + b) == 2 * GrayEncode(m) + Flip(b, m % 2)
  {
    Halves(m, b);
    Halves(m / 2, m % 2);
    XorStep(m, m / 2, b, m % 2);
  }

  lemma DecodeStep(h: nat, x: nat)
    requires x < 2
    ensures GrayDecode(2 * h + x) == 2 * GrayDecode(h) + Flip(x, GrayDecode(h) % 2)
  {
    Halves(h, x);
  }

  lemma {:induction false} XorSelf(a: nat)
    ensures Xor(a, a) == 0
  {
    if a > 0 {
      XorSelf(a / 2);
    }
  }

  /** Encoding and decoding are inverse to each other ... */
  lemma {:induction false} DecodeEncode(i: nat)
    ensures GrayDecode(GrayEncode(i)) == i
  {
    if i > 0 {
      var m, b := i / 2, i % 2;
      DecodeEncode(m);
      GrayStep(m, b);
      DecodeStep(GrayEncode(m), Flip(b, m % 2));
    }
  }

  lemma {:induction false} EncodeDecode(g: nat)
    ensures GrayEncode(GrayDecode(g)) == g
  {
    if g > 0 {
      var h, x := g / 2, g % 2;
      EncodeDecode(h);
      DecodeStep(h, x);
      GrayStep(GrayDecode(h), Flip(x, GrayDecode(h) % 2));
    }
  }

  /** ... and map the numbers of a given width onto themselves. */
  lemma {:induction false} GrayWidth(i: nat, bits: nat)
    ensures GrayEncode(i) < Pow2(bits) <==> i < Pow2(bits)
    decreases bits
  {
    if bits == 0 {
      DecodeEncode(i);
    } else {
      GrayStep(i / 2, i % 2);
      GrayWidth(i / 2, bits - 1);
    }
  }

  lemma OnesStep(n: nat, x: nat)
    requires x < 2
    ensures Ones(2 * n + x) == Ones(n) + x
  {
    Halves(n, x);
  }

  /** A common last bit does not count. */
  lemma SameLastBit(a: nat, b: nat, x: nat)
    requires x < 2
    ensures Ones(Xor(2 * a + x, 2 * b + x)) == Ones(Xor(a, b))
  {
    XorStep(a, b, x, x);
    OnesStep(Xor(a, b), 0);
  }

  /** A different last bit counts once. */
  lemma OtherLastBit(a: nat, x: nat)
    requires x < 2
    ensures Ones(Xor(2 * a + x, 2 * a + 1 - x)) == 1
  {
    XorStep(a, a, x, 1 - x);
    XorSelf(a);
    OnesStep(0, 1);
  }

  lemma EvenNeighbours(m: nat)
    ensures Ones(Xor(GrayEncode(2 * m), GrayEncode(2 * m + 1))) == 1
  {
    var g, x := GrayEncode(m), Flip(0, m % 2);
    assert GrayEncode(2 * m + 0) == 2 * g + x by { GrayStep(m, 0); }
    assert GrayEncode(2 * m + 1) == 2 * g + 1 - x by { GrayStep(m, 1); }
    OtherLastBit(g, x);
  }

  lemma Parity(m: nat)
    ensures Flip(1, m % 2) == Flip(0, (m + 1) % 2)
  {
  }

  lemma OddNeighbours(m: nat)
    ensures Ones(Xor(GrayEncode(2 * m + 1), GrayEncode(2 * (m + 1)))) == Ones(Xor(GrayEncode(m), GrayEncode(m + 1)))
  {
    var g, h, x := GrayEncode(m), GrayEncode(m + 1), Flip(1, m % 2);
    assert GrayEncode(2 * m + 1) == 2 * g + x by { GrayStep(m, 1); }
    assert GrayEncode(2 * (m + 1) + 0) == 2 * h + x by { GrayStep(m + 1, 0); Parity(m); }
    SameLastBit(g, h, x);
  }

  /** The codes of i and i + 1 differ in exactly one bit. */
  predicate Adjacent(i: nat) {
    Ones(Xor(GrayEncode(i), GrayEncode(i + 1))) == 1
  }

  lemma EvenAdjacent(i: nat, m: nat)
    requires i == 2 * m
    ensures Adjacent(i)
  {
    EvenNeighbours(m);
  }

  lemma OddAdjacent(i: nat, m: nat)
    requires i == 2 * m + 1 && Adjacent(m)
    ensures Adjacent(i)
  {
    OddNeighbours(m);
    assert i + 1 == 2 * (m + 1);
  }

  /** Consecutive numbers have codes that differ in exactly one bit. */
  lemma {:induction false} GrayNeighbours(i: nat)
    ensures Adjacent(i)
  {
    if i % 2 == 0 {
      EvenAdjacent(i, i / 2);
    } else {
      GrayNeighbours(i / 2);
      OddAdjacent(i, i / 2);
    }
  }

  lemma {:induction false} XorZero(a: nat)
    ensures Xor(a, 0) == a
  {
    if a > 0 {
      XorZero(a / 2);
    }
  }

  lemma {:induction false} LastCode(bits: nat)
    requires bits > 0
    ensures Pow2(bits) > 0 && GrayEncode(Pow2(bits) - 1) == Pow2(bits - 1)
  {
    if bits == 1 {
      GrayStep(0, 1);
    } else {
      LastCode(bits - 1);
      var m := Pow2(bits - 1) - 1;
      GrayStep(m, 1);
      Halves(Pow2(bits - 2) - 1, 1);
    }
  }

  lemma {:induction false} OneBit(n: nat)
    ensures Ones(Pow2(n)) == 1
  {
    if n > 0 {
      OneBit(n - 1);
      OnesStep(Pow2(n - 1), 0);
    }
  }

  /** So do the last and the first number of a given width. */
  lemma GrayWrapsAround(bits: nat)
    requires bits > 0
    ensures Pow2(bits) > 0 && Ones(Xor(GrayEncode(Pow2(bits) - 1), GrayEncode(0))) == 1
  {
    LastCode(bits);
    XorZero(Pow2(bits - 1));
    OneBit(bits - 1);
  }
}
