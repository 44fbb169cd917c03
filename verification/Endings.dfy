/** Line endings: folding a text to LF, writing it back, and telling which ending a file uses. */
module Endings {

  datatype LineEnding = LF | CRLF | CR

  /** `text.replace(/\r\n/g, "\n")` */
  function FoldPairs(s: string): string
  {
    if |s| == 0 then ""
    else if |s| >= 2 && s[0] == '\r' && s[1] == '\n' then "\n" + FoldPairs(s[2..])
    else [s[0]] + FoldPairs(s[1..])
  }

  /** `text.replace(/\r/g, "\n")` */
  function FoldLone(s: string): string
  {
    if |s| == 0 then "" else [if s[0] == '\r' then '\n' else s[0]] + FoldLone(s[1..])
  }

  function ToLF(s: string): string
  {
    FoldLone(FoldPairs(s))
  }

  function Spelling(e: LineEnding): string
  {
    match e
    case LF => "\n"
    case CRLF => "\r\n"
    case CR => "\r"
  }

  function RestoreEndings(s: string, e: LineEnding): string
  {
    if |s| == 0 then ""
    else (if s[0] == '\n' then Spelling(e) else [s[0]]) + RestoreEndings(s[1..], e)
  }

  /** `text.indexOf("\n")`, with the length standing for the source's -1. */
  function FirstLF(s: string): (i: nat)
    ensures i <= |s| && '\n' !in s[..i] && (i < |s| ==> s[i] == '\n')
  {
    if |s| == 0 || s[0] == '\n' then 0 else 1 + FirstLF(s[1..])
  }

  /** `text.indexOf("\r\n")`, with the length standing for the source's -1. */
  function FirstPair(s: string): (i: nat)
    ensures i <= |s|
    ensures i < |s| ==> PairAt(s, i)
    ensures forall j :: 0 <= j < i ==> !PairAt(s, j)
  {
    if |s| == 0 || PairAt(s, 0) then 0
    else
      var k := FirstPair(s[1..]);
      assert forall j :: 1 <= j < |s| ==> PairAt(s, j) == PairAt(s[1..], j - 1);
      1 + k
  }

  predicate PairAt(s: string, i: nat)
  {
    i + 1 < |s| && s[i] == '\r' && s[i + 1] == '\n'
  }

  function DetectEnding(s: string): LineEnding
  {
    if FirstLF(s) == |s| then (if '\r' in s then CR else LF)
    else if FirstPair(s) == |s| then LF
    else if FirstPair(s) < FirstLF(s) then CRLF
    else LF
  }

  /** A text that spells every line break the one way `e` spells it. */
  ghost predicate Uniform(s: string, e: LineEnding)
  {
    match e
    case LF => '\r' !in s
    case CR => '\n' !in s
    case CRLF =>
      && (forall i :: 0 <= i < |s| && s[i] == '\r' ==> PairAt(s, i))
      && (forall i :: 0 <= i < |s| && s[i] == '\n' ==> i > 0 && s[i - 1] == '\r')
  }

  lemma {:induction false} FoldLoneShape(s: string)
    ensures '\r' !in FoldLone(s)
    ensures '\r' !in s ==> FoldLone(s) == s
  {
    if |s| > 0 {
      FoldLoneShape(s[1..]);
      assert s == [s[0]] + s[1..];
    }
  }

  lemma {:induction false} FoldPairsKeeps(s: string)
    ensures '\n' !in s || '\r' !in s ==> FoldPairs(s) == s
  {
    if |s| > 0 {
      FoldPairsKeeps(s[1..]);
      assert s == [s[0]] + s[1..];
    }
  }

  lemma {:induction false} FoldPairsUndoesCrlf(t: string)
    requires '\r' !in t
    ensures FoldPairs(RestoreEndings(t, CRLF)) == t
  {
    if |t| > 0 {
      FoldPairsUndoesCrlf(t[1..]);
      var r := RestoreEndings(t[1..], CRLF);
      assert t == [t[0]] + t[1..];
      if t[0] == '\n' {
        assert RestoreEndings(t, CRLF)[2..] == r;
      } else {
        assert RestoreEndings(t, CRLF)[1..] == r;
      }
    }
  }

  /** Joining a break, or one other character, to paired text leaves it paired. */
  lemma PairsJoin(head: string, r: string)
    requires Uniform(r, CRLF) && (head == "\r\n" || (|head| == 1 && head[0] != '\r' && head[0] != '\n'))
    ensures Uniform(head + r, CRLF)
  {
    var whole := head + r;
    forall i | 0 <= i < |whole|
      ensures whole[i] == '\r' ==> PairAt(whole, i)
      ensures whole[i] == '\n' ==> i > 0 && whole[i - 1] == '\r'
    {
      if i >= |head| {
        assert whole[i] == r[i - |head|];
        assert PairAt(r, i - |head|) ==> PairAt(whole, i);
      }
    }
  }

  lemma {:induction false} RestoreCrlf(t: string)
    requires '\r' !in t
    ensures Uniform(RestoreEndings(t, CRLF), CRLF)
    ensures ('\r' in RestoreEndings(t, CRLF) || '\n' in RestoreEndings(t, CRLF)) == ('\n' in t)
  {
    if |t| > 0 {
      assert t == [t[0]] + t[1..];
      RestoreCrlf(t[1..]);
      PairsJoin(if t[0] == '\n' then Spelling(CRLF) else [t[0]], RestoreEndings(t[1..], CRLF));
    }
  }

  lemma {:induction false} RestoreShape(t: string, e: LineEnding)
    requires '\r' !in t
    ensures Uniform(RestoreEndings(t, e), e)
    ensures e == LF ==> RestoreEndings(t, e) == t
    ensures e == CR ==> FoldLone(RestoreEndings(t, e)) == t
    ensures ('\r' in RestoreEndings(t, e) || '\n' in RestoreEndings(t, e)) == ('\n' in t)
  {
    if e == CRLF {
      RestoreCrlf(t);
    } else if |t| > 0 {
      RestoreShape(t[1..], e);
      assert t == [t[0]] + t[1..];
      var head, r := if t[0] == '\n' then Spelling(e) else [t[0]], RestoreEndings(t[1..], e);
      assert |head| == 1 && (head + r)[0] == head[0] && (head + r)[1..] == r;
    }
  }

  /** Writing a folded text with any ending and folding it back is the identity. */
  lemma {:induction false} RestoreRoundTrip(t: string, e: LineEnding)
    requires '\r' !in t
    ensures ToLF(RestoreEndings(t, e)) == t
  {
    FoldLoneShape(t);
    FoldPairsKeeps(RestoreEndings(t, e));
    RestoreShape(t, e);
    FoldPairsUndoesCrlf(t);
  }

  /** A restored text with at least one line break is recognised as the ending it was written with. */
  lemma DetectsRestored(t: string, e: LineEnding)
    requires '\r' !in t && '\n' in t
    ensures DetectEnding(RestoreEndings(t, e)) == e
  {
    RestoreShape(t, e);
    var s := RestoreEndings(t, e);
    var i := FirstLF(s);
    if e == CRLF && i < |s| {
      assert PairAt(s, i - 1);
      assert FirstPair(s) <= i - 1;
    } else if e != CRLF {
      assert i == |s| ==> s[..i] == s;
    }
  }

  lemma {:induction false} RebuildUniformCrlf(s: string)
    requires Uniform(s, CRLF)
    ensures RestoreEndings(ToLF(s), CRLF) == s
  {
    if |s| > 0 {
      var n := if s[0] == '\r' then 2 else 1;
      assert s[0] == '\r' ==> PairAt(s, 0);
      var rest := s[n..];
      forall i | 0 <= i < |rest|
        ensures rest[i] == '\r' ==> PairAt(rest, i)
        ensures rest[i] == '\n' ==> i > 0 && rest[i - 1] == '\r'
      {
        assert rest[i] == s[n + i];
      }
      RebuildUniformCrlf(rest);
      var head := if n == 2 then "\n" else [s[0]];
      assert FoldPairs(s) == head + FoldPairs(rest);
      assert (head + FoldPairs(rest))[1..] == FoldPairs(rest);
      assert FoldLone(head + FoldPairs(rest)) == head + ToLF(rest);
      assert (head + ToLF(rest))[1..] == ToLF(rest);
      assert s == s[..n] + rest;
    }
  }

  lemma {:induction false} RebuildUniformCr(s: string)
    requires '\n' !in s
    ensures RestoreEndings(FoldLone(s), CR) == s
  {
    if |s| > 0 {
      RebuildUniformCr(s[1..]);
      assert FoldLone(s)[1..] == FoldLone(s[1..]);
      assert s == [s[0]] + s[1..];
    }
  }

  /**
   * A file is rebuilt byte for byte from its folded text and its detected ending exactly when it
   * spells every break the detected way; a mixed file is not, which is why raw images are kept.
   */
  lemma RebuiltExactlyWhenUniform(s: string)
    ensures RestoreEndings(ToLF(s), DetectEnding(s)) == s <==> Uniform(s, DetectEnding(s))
  {
    var e := DetectEnding(s);
    FoldLoneShape(FoldPairs(s));
    RestoreShape(ToLF(s), e);
    FoldPairsKeeps(s);
    match e
    case LF => FoldLoneShape(s);
    case CR =>
      assert s[..FirstLF(s)] == s;
      RebuildUniformCr(s);
    case CRLF =>
      if Uniform(s, CRLF) { RebuildUniformCrlf(s); }
  }

  /** A text without a line feed reads as carriage returns when it has one, and as line feeds otherwise. */
  lemma DetectsWithoutLineFeed(s: string)
    requires '\n' !in s
    ensures DetectEnding(s) == if '\r' in s then CR else LF
  {
    assert FirstLF(s) == |s| || '\n' in s;
  }
}
