/** Success-or-failure wrappers shared by every module. */
module Results {
  datatype Option<+T> = None | Some(value: T) {
    predicate IsFailure() { None? }

    function PropagateFailure<U>(): Option<U>
      requires None?
    {
      None
    }

    function Extract(): T
      requires Some?
    {
      value
    }
  }

  datatype Result<+T, +E> = Ok(value: T) | Err(error: E) {
    predicate IsFailure() { Err? }

    function PropagateFailure<U>(): Result<U, E>
      requires Err?
    {
      Err(error)
    }

    function Extract(): T
      requires Ok?
    {
      value
    }
  }
}

/** Byte strings, fixed-width integers, and lowercase hex. */
module Bytes {
  type byte = x: int | 0 <= x < 256
  type bytes = seq<byte>
  type uint64 = x: int | 0 <= x < 0x1_0000_0000_0000_0000
  type int64 = x: int | -0x8000_0000_0000_0000 <= x < 0x8000_0000_0000_0000

  /** Go's uint64(v) on an int64: negative values wrap. */
  function ToUint64(v: int64): (u: uint64)
  {
    if v < 0 then v + 0x1_0000_0000_0000_0000 else v
  }

  /** Go's int64(u) on a uint64: values from 2^63 up wrap to negative. */
  function ToInt64(u: uint64): (v: int64)
  {
    if u >= 0x8000_0000_0000_0000 then u - 0x1_0000_0000_0000_0000 else u
  }

  function Pow256(n: nat): (p: nat)
    ensures p >= 1
  {
    if n == 0 then 1 else 256 * Pow256(n - 1)
  }

  /** The low `width` bytes of v, most significant first. */
  function BigEndian(v: nat, width: nat): (s: bytes)
    ensures |s| == width
  {
    if width == 0 then [] else BigEndian(v / 256, width - 1) + [v % 256]
  }

  function FromBigEndian(s: bytes): (v: nat)
    ensures v < Pow256(|s|)
  {
    if s == [] then 0 else FromBigEndian(s[..|s| - 1]) * 256 + s[|s| - 1]
  }

  lemma {:induction false} BigEndianDecodes(v: nat, width: nat)
    requires v < Pow256(width)
    ensures FromBigEndian(BigEndian(v, width)) == v
  {
    if width > 0 {
      BigEndianDecodes(v / 256, width - 1);
      assert BigEndian(v, width)[..width - 1] == BigEndian(v / 256, width - 1);
    }
  }

  lemma {:induction false} BigEndianEncodes(s: bytes)
    ensures BigEndian(FromBigEndian(s), |s|) == s
  {
    if s != [] {
      BigEndianEncodes(s[..|s| - 1]);
      assert s == s[..|s| - 1] + [s[|s| - 1]];
    }
  }

  lemma FromBigEndianSnoc(s: bytes, x: byte)
    ensures FromBigEndian(s + [x]) == FromBigEndian(s) * 256 + x
  {
    assert (s + [x])[..|s|] == s;
  }

  /** What eight bytes weigh, the first the most. */
  function Weighed(s: bytes): nat
    requires |s| == 8
  {
    s[0] as int * 0x100_0000_0000_0000 + s[1] as int * 0x1_0000_0000_0000 + s[2] as int * 0x100_0000_0000
        + s[3] as int * 0x1_0000_0000
    + s[4] as int * 0x100_0000 + s[5] as int * 0x1_0000 + s[6] as int * 0x100 + s[7]
  }

  lemma FourBytesWeigh(s: bytes, a: byte, b: byte, c: byte, d: byte)
    ensures FromBigEndian(s + [a] + [b] + [c] + [d])
            == FromBigEndian(s) * 0x1_0000_0000 + a as int * 0x100_0000 + b as int * 0x1_0000 + c as int * 0x100 + d
  {
    FromBigEndianSnoc(s, a);
    FromBigEndianSnoc(s + [a], b);
    FromBigEndianSnoc(s + [a] + [b], c);
    FromBigEndianSnoc(s + [a] + [b] + [c], d);
  }

  lemma EightBytesWeigh(s: bytes)
    requires |s| == 8
    ensures FromBigEndian(s) == Weighed(s)
  {
    var none: bytes := [];
    var high := none + [s[0]] + [s[1]] + [s[2]] + [s[3]];
    FourBytesWeigh(none, s[0], s[1], s[2], s[3]);
    FourBytesWeigh(high, s[4], s[5], s[6], s[7]);
    assert s == high + [s[4]] + [s[5]] + [s[6]] + [s[7]];
  }

  lemma Pow256Values()
    ensures Pow256(8) == 0x1_0000_0000_0000_0000
  {
    assert Pow256(2) == 0x1_0000;
    assert Pow256(4) == 0x1_0000_0000;
    assert Pow256(6) == 0x1_0000_0000_0000;
  }

  ghost predicate ContainsAt<T(!new)>(s: seq<T>, sub: seq<T>, i: nat) {
    i + |sub| <= |s| && s[i..i + |sub|] == sub
  }

  ghost predicate Contains<T(!new)>(s: seq<T>, sub: seq<T>) {
    exists i: nat :: ContainsAt(s, sub, i)
  }

  function HexDigit(n: nat): (c: char)
    requires n < 16
    ensures '0' <= c <= '9' || 'a' <= c <= 'f'
  {
    if n < 10 then '0' + n as char else 'a' + (n - 10) as char
  }

  function HexByte(x: byte): (h: string)
    ensures |h| == 2
  {
    [HexDigit(x / 16), HexDigit(x % 16)]
  }

  lemma HexByteInjective(x: byte, y: byte)
    requires HexByte(x) == HexByte(y)
    ensures x == y
  {
    assert HexByte(x)[0] == HexByte(y)[0] && HexByte(x)[1] == HexByte(y)[1];
  }

  /** encoding/hex: two lowercase digits a byte. */
  function HexEncode(s: bytes): (h: string)
    ensures |h| == 2 * |s|
  {
    if s == [] then "" else HexByte(s[0]) + HexEncode(s[1..])
  }

  predicate IsHexDigit(c: char) { '0' <= c <= '9' || 'a' <= c <= 'f' }

  lemma {:induction false} HexDigitsOnly(s: bytes)
    ensures forall c <- HexEncode(s) :: IsHexDigit(c)
  {
    if s != [] {
      HexDigitsOnly(s[1..]);
      var h := HexByte(s[0]);
      assert IsHexDigit(h[0]) && IsHexDigit(h[1]);
      assert forall c :: c in HexEncode(s) ==> c == h[0] || c == h[1] || c in HexEncode(s[1..]);
    }
  }

  lemma ConcatAssociates<T>(x: seq<T>, y: seq<T>, z: seq<T>)
    ensures x + (y + z) == x + y + z
  {
  }

  lemma HexOfTwo(x: byte, y: byte)
    ensures HexEncode([x, y]) == HexByte(x) + HexByte(y)
  {
    HexStep(y, []);
    HexStep(x, [y]);
    assert [x] + [y] == [x, y] && [y] + [] == [y];
    assert HexByte(y) + HexEncode([]) == HexByte(y);
  }

  /** Every digit, in its place and in lower case. */
  lemma HexOfDigits()
    ensures HexEncode([0x01, 0x23]) == "0123" && HexEncode([0x45, 0x67]) == "4567"
    ensures HexEncode([0x89, 0xab]) == "89ab" && HexEncode([0xcd, 0xef]) == "cdef"
  {
    HexOfTwo(0x01, 0x23);
    HexOfTwo(0x45, 0x67);
    HexOfTwo(0x89, 0xab);
    HexOfTwo(0xcd, 0xef);
    assert HexByte(0x01) == "01" && HexByte(0x23) == "23" && HexByte(0x45) == "45" && HexByte(0x67) == "67";
    assert HexByte(0x89) == "89" && HexByte(0xab) == "ab" && HexByte(0xcd) == "cd" && HexByte(0xef) == "ef";
  }

  lemma HexStep(x: byte, s: bytes)
    ensures HexEncode([x] + s) == HexByte(x) + HexEncode(s)
  {
    assert ([x] + s)[1..] == s;
  }

  lemma {:induction false} HexConcat(a: bytes, b: bytes)
    ensures HexEncode(a + b) == HexEncode(a) + HexEncode(b)
  {
    if a == [] {
      assert a + b == b;
    } else {
      var x, rest := a[0], a[1..];
      HexConcat(rest, b);
      HexStep(x, rest + b);
      HexStep(x, rest);
      assert a + b == [x] + (rest + b) && a == [x] + rest;
      ConcatAssociates(HexByte(x), HexEncode(rest), HexEncode(b));
    }
  }

  lemma {:induction false} HexDigitsAt(s: bytes, i: nat)
    requires i < |s|
    ensures HexEncode(s)[2 * i] == HexDigit(s[i] / 16) && HexEncode(s)[2 * i + 1] == HexDigit(s[i] % 16)
  {
    if i > 0 {
      HexDigitsAt(s[1..], i - 1);
    }
  }

  /** A registry key identifies one pkScript. */
  lemma {:induction false} HexInjective(a: bytes, b: bytes)
    requires HexEncode(a) == HexEncode(b)
    ensures a == b
  {
    if a == [] {
      assert |b| == 0;
    } else {
      var ha, hb := HexEncode(a), HexEncode(b);
      assert b != [];
      assert HexByte(a[0]) == ha[..2] && HexByte(b[0]) == hb[..2];
      HexByteInjective(a[0], b[0]);
      assert ha[2..] == HexEncode(a[1..]) && hb[2..] == HexEncode(b[1..]);
      HexInjective(a[1..], b[1..]);
      assert a == [a[0]] + a[1..] && b == [b[0]] + b[1..];
    }
  }

  lemma ContainsMiddle<T(!new)>(pre: seq<T>, sub: seq<T>, post: seq<T>)
    ensures ContainsAt(pre + sub + post, sub, |pre|)
    ensures Contains(pre + sub + post, sub)
  {
    assert ContainsAt(pre + sub + post, sub, |pre|);
  }

  /** A substring test on hex never misses a substring of the bytes. */
  lemma HexContains(s: bytes, sub: bytes)
    requires Contains(s, sub)
    ensures Contains(HexEncode(s), HexEncode(sub))
  {
    var i: nat :| ContainsAt(s, sub, i);
    var pre, post := s[..i], s[i + |sub|..];
    assert s == pre + sub + post;
    HexConcat(pre + sub, post);
    HexConcat(pre, sub);
    ContainsMiddle(HexEncode(pre), HexEncode(sub), HexEncode(post));
  }
}

/** Scans of a range of indices: the first and the last that passes a test, and until one does. */
module Scan {
  import opened Results

  ghost function First(hit: nat -> bool, k: nat, n: nat): nat
    decreases n - k
  {
    if k >= n || hit(k) then k else First(hit, k + 1, n)
  }

  lemma {:induction false} FirstIsLeast(hit: nat -> bool, k: nat, n: nat)
    requires k <= n
    ensures var first := First(hit, k, n);
            && k <= first <= n && (first < n ==> hit(first))
            && forall j :: k <= j < first ==> !hit(j)
    decreases n - k
  {
    if k < n && !hit(k) {
      FirstIsLeast(hit, k + 1, n);
    }
  }

  function Last(hit: nat -> bool, n: nat): Option<nat> {
    if n == 0 then None else if hit(n - 1) then Some(n - 1) else Last(hit, n - 1)
  }

  lemma {:induction false} LastIsLast(hit: nat -> bool, n: nat)
    ensures var last := Last(hit, n);
            if last.None? then forall k: nat :: k < n ==> !hit(k)
            else last.value < n && hit(last.value) && forall k: nat :: last.value < k < n ==> !hit(k)
  {
    if n > 0 && !hit(n - 1) {
      LastIsLast(hit, n - 1);
    }
  }

  lemma {:induction false} LastStaysIff(hit: nat -> bool, i: nat, j: nat)
    requires i <= j
    ensures Last(hit, j) == Last(hit, i) <==> forall k: nat :: i <= k < j ==> !hit(k)
    decreases j
  {
    LastIsLast(hit, i);
    if i < j && !hit(j - 1) {
      LastStaysIff(hit, i, j - 1);
    }
  }

  /** What each step keeps, or else ends in a find, is kept until there has been a find. */
  lemma {:induction false} UntilFound(kept: nat -> bool, found: nat -> bool, i: nat, j: nat)
    requires i <= j && kept(i)
    requires forall k: nat :: i <= k < j && kept(k) ==> kept(k + 1) || found(k)
    ensures kept(j) || exists k: nat :: i <= k < j && found(k)
    decreases j - i
  {
    if i < j {
      UntilFound(kept, found, i, j - 1);
    }
  }
}
