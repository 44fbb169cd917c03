/** Lexicographic order on code sequences: byte order of UTF-8 texts, and the default order of a path sort. */
module LexOrder {

  predicate Less(a: seq<int>, b: seq<int>)
  {
    b != [] && (a == [] || a[0] < b[0] || (a[0] == b[0] && Less(a[1..], b[1..])))
  }

  lemma {:induction false} Trichotomy(a: seq<int>, b: seq<int>)
    ensures Less(a, b) || Less(b, a) || a == b
    ensures !(Less(a, b) && Less(b, a)) && !Less(a, a)
  {
    if a != [] { Trichotomy(a[1..], a[1..]); }
    if a != [] && b != [] && a[0] == b[0] {
      Trichotomy(a[1..], b[1..]);
      assert a == [a[0]] + a[1..] && b == [b[0]] + b[1..];
    }
  }

  lemma {:induction false} Transitive(a: seq<int>, b: seq<int>, c: seq<int>)
    requires Less(a, b) && Less(b, c)
    ensures Less(a, c)
  {
    if a != [] && a[0] == b[0] == c[0] { Transitive(a[1..], b[1..], c[1..]); }
  }

  // ----- UTF-8

  function EncodeChar(c: char): (bytes: seq<int>)
    ensures 1 <= |bytes| <= 4
  {
    var n := c as int;
    if n < 0x80 then [n]
    else if n < 0x800 then [0xC0 + n / 0x40, 0x80 + n % 0x40]
    else if n < 0x10000 then [0xE0 + n / 0x1000, 0x80 + n / 0x40 % 0x40, 0x80 + n % 0x40]
    else [0xF0 + n / 0x40000, 0x80 + n / 0x1000 % 0x40, 0x80 + n / 0x40 % 0x40, 0x80 + n % 0x40]
  }

  function Utf8(s: string): seq<int>
  {
    if s == "" then [] else EncodeChar(s[0]) + Utf8(s[1..])
  }

  /** The lead byte fixes the length of an encoding. */
  function LengthOf(lead: int): nat
  {
    if lead < 0x80 then 1 else if lead < 0xE0 then 2 else if lead < 0xF0 then 3 else 4
  }

  lemma LeadByte(c: char)
    ensures |EncodeChar(c)| == LengthOf(EncodeChar(c)[0])
  {
  }

  /** The code point an encoding stands for. */
  function DecodeChar(b: seq<int>): int
    requires 1 <= |b| <= 4
  {
    if |b| == 1 then b[0]
    else if |b| == 2 then (b[0] - 0xC0) * 0x40 + (b[1] - 0x80)
    else if |b| == 3 then (b[0] - 0xE0) * 0x1000 + (b[1] - 0x80) * 0x40 + (b[2] - 0x80)
    else (b[0] - 0xF0) * 0x40000 + (b[1] - 0x80) * 0x1000 + (b[2] - 0x80) * 0x40 + (b[3] - 0x80)
  }

  lemma SixBits(n: nat)
    ensures n == n / 0x1000 * 0x1000 + n / 0x40 % 0x40 * 0x40 + n % 0x40
    ensures n / 0x1000 == n / 0x40000 * 0x40 + n / 0x1000 % 0x40
  {
  }

  lemma DecodesBack(c: char)
    ensures DecodeChar(EncodeChar(c)) == c as int
  {
    SixBits(c as int);
  }

  lemma CharInjective(c: char, d: char)
    requires EncodeChar(c) == EncodeChar(d)
    ensures c == d
  {
    DecodesBack(c);
    DecodesBack(d);
  }

  /** Distinct texts have distinct encodings, so byte order is total on texts. */
  lemma {:induction false} Utf8Injective(s: string, t: string)
    requires Utf8(s) == Utf8(t)
    ensures s == t
  {
    if s != "" && t != "" {
      var a, b := EncodeChar(s[0]), EncodeChar(t[0]);
      LeadByte(s[0]);
      LeadByte(t[0]);
      assert a[0] == Utf8(s)[0] == Utf8(t)[0] == b[0];
      assert a == Utf8(s)[..|a|] && b == Utf8(t)[..|b|];
      CharInjective(s[0], t[0]);
      assert Utf8(s[1..]) == Utf8(s)[|a|..] && Utf8(t[1..]) == Utf8(t)[|b|..];
      Utf8Injective(s[1..], t[1..]);
      assert s == [s[0]] + s[1..] && t == [t[0]] + t[1..];
    }
  }

  // ----- the order in plain words

  /** a is a proper beginning of b, or smaller at the first place they differ. */
  ghost predicate FirstDiffers(a: seq<int>, b: seq<int>, k: nat)
  {
    && k <= |a| && k < |b| && a[..k] == b[..k] && (k == |a| || a[k] < b[k])
  }

  lemma {:induction false} LessMeans(a: seq<int>, b: seq<int>)
    ensures Less(a, b) <==> exists k :: FirstDiffers(a, b, k)
  {
    if b != [] && (a == [] || a[0] < b[0]) {
      assert FirstDiffers(a, b, 0);
    } else if b != [] && a[0] == b[0] {
      LessMeans(a[1..], b[1..]);
      if k: nat :| FirstDiffers(a[1..], b[1..], k) {
        assert a[..k + 1] == [a[0]] + a[1..][..k] && b[..k + 1] == [b[0]] + b[1..][..k];
        assert FirstDiffers(a, b, k + 1);
      }
      if k: nat :| FirstDiffers(a, b, k) {
        assert k > 0 && a[1..][..k - 1] == a[..k][1..] && b[1..][..k - 1] == b[..k][1..];
        assert FirstDiffers(a[1..], b[1..], k - 1);
      }
    } else {
      forall k: nat
        ensures !FirstDiffers(a, b, k)
      {
        if 0 < k <= |a| && k < |b| && a[..k] == b[..k] { HeadsAgree(a, b, k); }
      }
    }
  }

  lemma HeadsAgree(a: seq<int>, b: seq<int>, k: nat)
    requires 0 < k <= |a| && k < |b| && a[..k] == b[..k]
    ensures a[0] == b[0]
  {
    assert a[..k][0] == a[0] && b[..k][0] == b[0];
  }

  function CodePoints(s: string): (points: seq<int>)
    ensures |points| == |s| && forall i :: 0 <= i < |s| ==> points[i] == s[i] as int
  {
    if s == "" then [] else [s[0] as int] + CodePoints(s[1..])
  }

  /**
   * Encodings of two characters differ first at a byte both have, and there the smaller character has the smaller byte.
   */
  ghost predicate EncodedBefore(a: seq<int>, b: seq<int>, k: nat)
  {
    k < |a| && k < |b| && a[..k] == b[..k] && a[k] < b[k]
  }

  lemma EncodeAscends(c: char, d: char) returns (k: nat)
    requires c < d
    ensures EncodedBefore(EncodeChar(c), EncodeChar(d), k)
  {
    var a, b := EncodeChar(c), EncodeChar(d);
    FirstAscends(c, d);
    if |a| != |b| || a[0] != b[0] {
      k := 0;
    } else {
      AloneAscends(c, d);
      SecondAscends(c, d);
      if a[1] != b[1] {
        k := 1;
      } else {
        ThirdAscends(c, d);
        k := if a[2] != b[2] then 2 else 3;
        if k == 3 { ThirdDecides(c, d); FourthAscends(c, d); }
      }
    }
    hide EncodeChar;
  }

  lemma FirstAscends(c: char, d: char)
    requires c < d
    ensures |EncodeChar(c)| != |EncodeChar(d)| || EncodeChar(c)[0] != EncodeChar(d)[0]
            ==> EncodeChar(c)[0] < EncodeChar(d)[0]
  {
    LeadAscends(c as int, d as int);
  }

  lemma AloneAscends(c: char, d: char)
    requires c < d && |EncodeChar(c)| == |EncodeChar(d)| && EncodeChar(c)[0] == EncodeChar(d)[0]
    ensures |EncodeChar(c)| > 1
  {
  }

  lemma ThirdDecides(c: char, d: char)
    requires c < d && |EncodeChar(c)| == |EncodeChar(d)| > 2
    requires forall i :: 0 <= i < 3 ==> EncodeChar(c)[i] == EncodeChar(d)[i]
    ensures |EncodeChar(c)| == 4
  {
    ThirdAscends(c, d);
  }

  lemma FourthAscends(c: char, d: char)
    requires c < d && |EncodeChar(c)| == |EncodeChar(d)| == 4
    requires forall i :: 0 <= i < 3 ==> EncodeChar(c)[i] == EncodeChar(d)[i]
    ensures EncodeChar(c)[3] < EncodeChar(d)[3]
  {
    assert EncodeChar(c)[0] == EncodeChar(d)[0];
    assert EncodeChar(c)[1] == EncodeChar(d)[1] && EncodeChar(c)[2] == EncodeChar(d)[2];
    SixBits(c as int);
    SixBits(d as int);
  }

  lemma LeadAscends(m: nat, n: nat)
    requires m <= n
    ensures m / 0x40 <= n / 0x40 && m / 0x1000 <= n / 0x1000 && m / 0x40000 <= n / 0x40000
  {
  }

  lemma SecondAscends(c: char, d: char)
    requires c < d && |EncodeChar(c)| == |EncodeChar(d)| > 1 && EncodeChar(c)[0] == EncodeChar(d)[0]
    ensures EncodeChar(c)[1] <= EncodeChar(d)[1]
    ensures |EncodeChar(c)| == 2 ==> EncodeChar(c)[1] < EncodeChar(d)[1]
  {
    var m, n := c as int, d as int;
    SixBits(m);
    SixBits(n);
    LeadAscends(m, n);
  }

  lemma ThirdAscends(c: char, d: char)
    requires c < d && |EncodeChar(c)| == |EncodeChar(d)| > 2
    requires EncodeChar(c)[0] == EncodeChar(d)[0] && EncodeChar(c)[1] == EncodeChar(d)[1]
    ensures EncodeChar(c)[2] <= EncodeChar(d)[2]
    ensures |EncodeChar(c)| == 3 ==> EncodeChar(c)[2] < EncodeChar(d)[2]
  {
    var m, n := c as int, d as int;
    SixBits(m);
    SixBits(n);
    LeadAscends(m, n);
  }

  lemma {:induction false} LessAfter(head: seq<int>, a: seq<int>, b: seq<int>)
    ensures Less(head + a, head + b) <==> Less(a, b)
  {
    if head == [] {
      assert [] + a == a && [] + b == b;
    } else {
      LessAfter(head[1..], a, b);
      assert (head + a)[1..] == head[1..] + a && (head + b)[1..] == head[1..] + b;
    }
  }

  /** UTF-8 keeps the order of code points: comparing bytes is comparing characters. */
  lemma {:induction false} Utf8KeepsOrder(s: string, t: string)
    ensures Less(Utf8(s), Utf8(t)) <==> Less(CodePoints(s), CodePoints(t))
  {
    if s != "" && t != "" {
      if s[0] == t[0] {
        LessAfter(EncodeChar(s[0]), Utf8(s[1..]), Utf8(t[1..]));
        Utf8KeepsOrder(s[1..], t[1..]);
      } else if s[0] < t[0] {
        Utf8HeadDecides(s, t);
      } else {
        Utf8HeadDecides(t, s);
        Trichotomy(Utf8(s), Utf8(t));
      }
    }
  }

  lemma Utf8HeadDecides(s: string, t: string)
    requires s != "" && t != "" && s[0] < t[0]
    ensures Less(Utf8(s), Utf8(t))
  {
    var a, b := EncodeChar(s[0]), EncodeChar(t[0]);
    var k := EncodeAscends(s[0], t[0]);
    assert Utf8(s) == a + Utf8(s[1..]) && Utf8(t) == b + Utf8(t[1..]);
    assert Utf8(s)[..k] == a[..k] && Utf8(t)[..k] == b[..k];
    assert FirstDiffers(Utf8(s), Utf8(t), k);
    LessMeans(Utf8(s), Utf8(t));
  }
}
