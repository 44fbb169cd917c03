/** Unwrapping a path a model has wrapped: trim, and peel wrappers until nothing changes. */
module PathWrappers {

  /** The white space `trim` removes. */
  predicate White(c: char)
  {
    var n := c as int;
    || 0x09 <= n <= 0x0D || n == 0x20 || n == 0xA0 || n == 0x1680 || 0x2000 <= n <= 0x200A
    || n == 0x2028 || n == 0x2029 || n == 0x202F || n == 0x205F || n == 0x3000 || n == 0xFEFF
  }

  predicate Trimmed(s: string)
  {
    s == "" || (!White(s[0]) && !White(s[|s| - 1]))
  }

  function TrimStart(s: string): (r: string)
    ensures |r| <= |s| && (r != "" ==> !White(r[0]) && r[|r| - 1] == s[|s| - 1])
    ensures s == "" || !White(s[0]) ==> r == s
  {
    if s == "" || !White(s[0]) then s else TrimStart(s[1..])
  }

  function TrimEnd(s: string): (r: string)
    ensures r <= s && (r != "" ==> !White(r[|r| - 1]))
    ensures s == "" || !White(s[|s| - 1]) ==> r == s
  {
    if s == "" || !White(s[|s| - 1]) then s else TrimEnd(s[..|s| - 1])
  }

  function Trim(s: string): (r: string)
    ensures Trimmed(r) && |r| <= |s|
    ensures Trimmed(s) ==> r == s
  {
    TrimEnd(TrimStart(s))
  }

  predicate Starts(s: string, mark: string)
  {
    mark <= s
  }

  predicate Ends(s: string, mark: string)
  {
    |mark| <= |s| && s[|s| - |mark|..] == mark
  }

  /** `s.slice(k, -k)` */
  function Inside(s: string, k: nat): (r: string)
    ensures |r| <= |s| && (k > 0 && s != "" ==> |r| < |s|)
  {
    if 2 * k <= |s| then s[k..|s| - k] else ""
  }

  const TAG := "<|>"

  /** A pair of marks around the path, with something between them, goes. */
  function Unwrap(s: string, mark: string): string
  {
    if Starts(s, mark) && Ends(s, mark) && |s| > 2 * |mark| then Trim(Inside(s, |mark|)) else s
  }

  predicate Quoted(s: string, quote: char)
  {
    s != "" && s[0] == quote && s[|s| - 1] == quote
  }

  function Unquote(s: string): string
  {
    if Quoted(s, '"') || Quoted(s, '\'') || Quoted(s, '`') then Trim(Inside(s, 1)) else s
  }

  function Behead(s: string): string
  {
    if Starts(s, TAG) then Trim(s[3..]) else s
  }

  function Curtail(s: string): string
  {
    if Ends(s, TAG) then Trim(s[..|s| - 3]) else s
  }

  /** One round of the loop: six peels in order. */
  function Round(s: string): string
  {
    Curtail(Behead(Unquote(Unwrap(Unwrap(Unwrap(s, TAG), "\U{2502}"), "|"))))
  }

  /** A peel shortens or leaves alone, and keeps a trimmed path trimmed. */
  ghost predicate Peels(before: string, after: string)
  {
    (after == before || |after| < |before|) && (Trimmed(before) ==> Trimmed(after))
  }

  lemma RoundPeels(s: string)
    ensures Peels(s, Round(s))
    ensures Round(s) == s ==> Unwrap(s, TAG) == s && Unwrap(s, "\U{2502}") == s && Unwrap(s, "|") == s
                              && Unquote(s) == s && Behead(s) == s && Curtail(s) == s
  {
  }

  /** Rounds until one changes nothing. */
  function Settle(s: string): string
    decreases |s|
  {
    RoundPeels(s);
    if Round(s) == s then s else Settle(Round(s))
  }

  datatype Path = NoPath | Path(text: string)

  function Sanitized(text: string): Path
  {
    var s := Settle(Trim(text));
    if s == "" then NoPath else Path(s)
  }

  /** A peel and the flag: raised exactly when the path got shorter. */
  ghost predicate Peeled(before: string, was: bool, after: string, changed: bool)
  {
    (after == before && changed == was) || (|after| < |before| && changed)
  }

  method TryUnwrap(s: string, mark: string, was: bool) returns (r: string, changed: bool)
    requires mark != ""
    ensures r == Unwrap(s, mark) && Peeled(s, was, r, changed)
  {
    if Starts(s, mark) && Ends(s, mark) && |s| > 2 * |mark| { return Trim(Inside(s, |mark|)), true; }
    return s, was;
  }

  method TryUnquote(s: string, was: bool) returns (r: string, changed: bool)
    ensures r == Unquote(s) && Peeled(s, was, r, changed)
  {
    if Quoted(s, '"') || Quoted(s, '\'') || Quoted(s, '`') { return Trim(Inside(s, 1)), true; }
    return s, was;
  }

  method TryBehead(s: string, was: bool) returns (r: string, changed: bool)
    ensures r == Behead(s) && Peeled(s, was, r, changed)
  {
    if Starts(s, TAG) { return Trim(s[3..]), true; }
    return s, was;
  }

  method TryCurtail(s: string, was: bool) returns (r: string, changed: bool)
    ensures r == Curtail(s) && Peeled(s, was, r, changed)
  {
    if Ends(s, TAG) { return Trim(s[..|s| - 3]), true; }
    return s, was;
  }

  /** The loop with its `changed` flag; it ends because every change shortens the path. */
  method SanitizePath(text: string) returns (r: Path)
    ensures r == Sanitized(text)
  {
    var s := Trim(text);
    var changed := true;
    while changed
      invariant Settle(s) == Settle(Trim(text))
      invariant !changed ==> Round(s) == s
      decreases |s|, changed
    {
      ghost var before := s;
      s, changed := TryUnwrap(s, TAG, false);
      s, changed := TryUnwrap(s, "\U{2502}", changed);
      s, changed := TryUnwrap(s, "|", changed);
      s, changed := TryUnquote(s, changed);
      s, changed := TryBehead(s, changed);
      s, changed := TryCurtail(s, changed);
      assert s == Round(before) && Peeled(before, false, s, changed);
    }
    assert Settle(s) == s;
    r := if s == "" then NoPath else Path(s);
  }

  /** The result is trimmed, and no wrapper is left to peel. */
  lemma {:induction false} SettleIsFixpoint(s: string)
    requires Trimmed(s)
    ensures Trimmed(Settle(s)) && Round(Settle(s)) == Settle(s) && |Settle(s)| <= |s|
    decreases |s|
  {
    RoundPeels(s);
    if Round(s) != s { SettleIsFixpoint(Round(s)); }
  }

  /** A sanitized path carries no tag at either end and no quotes around it, and sanitizing it again changes nothing. */
  lemma SanitizedTwice(text: string)
    ensures var r := Sanitized(text);
            r.Path? ==> r.text != "" && Sanitized(r.text) == r
                        && !Starts(r.text, TAG) && !Ends(r.text, TAG)
                        && !Quoted(r.text, '"') && !Quoted(r.text, '\'') && !Quoted(r.text, '`')
  {
    SettleIsFixpoint(Trim(text));
    RoundPeels(Settle(Trim(text)));
  }

  // ----- only wrapping is taken off

  predicate Wrapping(c: char)
  {
    White(c) || c == '"' || c == '\'' || c == '`' || c == '|' || c == '\U{2502}' || c == '<' || c == '>'
  }

  /** The path stands at i of the text, and only wrapping stands around it. */
  ghost predicate StandsAt(text: string, path: string, i: nat)
  {
    && i + |path| <= |text| && text[i..i + |path|] == path
    && forall k :: 0 <= k < i || i + |path| <= k < |text| ==> Wrapping(text[k])
  }

  ghost predicate Unwraps(text: string, path: string)
  {
    exists i: nat :: StandsAt(text, path, i)
  }

  lemma UnwrapsWithin(a: string, b: string, c: string)
    requires Unwraps(a, b) && Unwraps(b, c)
    ensures Unwraps(a, c)
  {
    var i: nat :| StandsAt(a, b, i);
    var j: nat :| StandsAt(b, c, j);
    forall k | i <= k < i + |b| ensures a[k] == b[k - i] {
      assert a[i..i + |b|][k - i] == a[k];
    }
    forall k | 0 <= k < |c| ensures a[i + j + k] == c[k] {
      assert b[j..j + |c|][k] == b[j + k];
    }
    assert a[i + j..i + j + |c|] == c;
    assert StandsAt(a, c, i + j);
  }

  /** Taking n characters of wrapping off the front, and m off the back. */
  lemma CutUnwraps(s: string, n: nat, m: nat)
    requires n + m <= |s|
    requires forall k :: 0 <= k < n || |s| - m <= k < |s| ==> Wrapping(s[k])
    ensures Unwraps(s, s[n..|s| - m])
  {
    assert StandsAt(s, s[n..|s| - m], n);
  }

  lemma {:induction false} TrimStartUnwraps(s: string)
    ensures Unwraps(s, TrimStart(s))
  {
    if s == "" || !White(s[0]) {
      CutUnwraps(s, 0, 0);
      assert s[0..|s| - 0] == s;
    } else {
      TrimStartUnwraps(s[1..]);
      CutUnwraps(s, 1, 0);
      assert s[1..|s| - 0] == s[1..];
      UnwrapsWithin(s, s[1..], TrimStart(s));
    }
  }

  lemma {:induction false} TrimEndUnwraps(s: string)
    ensures Unwraps(s, TrimEnd(s))
  {
    if s == "" || !White(s[|s| - 1]) {
      CutUnwraps(s, 0, 0);
      assert s[0..|s| - 0] == s;
    } else {
      TrimEndUnwraps(s[..|s| - 1]);
      CutUnwraps(s, 0, 1);
      assert s[0..|s| - 1] == s[..|s| - 1];
      UnwrapsWithin(s, s[..|s| - 1], TrimEnd(s));
    }
  }

  lemma TrimUnwraps(s: string)
    ensures Unwraps(s, Trim(s))
  {
    TrimStartUnwraps(s);
    TrimEndUnwraps(TrimStart(s));
    UnwrapsWithin(s, TrimStart(s), Trim(s));
  }

  /** Marks of wrapping characters at both ends, or what is between them, trimmed. */
  lemma InsideUnwraps(s: string, k: nat)
    requires k <= |s| && forall i :: 0 <= i < k || |s| - k <= i < |s| ==> Wrapping(s[i])
    ensures Unwraps(s, Trim(Inside(s, k)))
  {
    if 2 * k <= |s| {
      CutUnwraps(s, k, k);
      assert Inside(s, k) == s[k..|s| - k];
    } else {
      CutUnwraps(s, k, |s| - k);
      assert s[k..|s| - (|s| - k)] == Inside(s, k);
    }
    TrimUnwraps(Inside(s, k));
    UnwrapsWithin(s, Inside(s, k), Trim(Inside(s, k)));
  }

  lemma SameUnwraps(s: string)
    ensures Unwraps(s, s)
  {
    CutUnwraps(s, 0, 0);
    assert s[0..|s| - 0] == s;
  }

  lemma UnwrapUnwraps(s: string, mark: string)
    requires forall c :: c in mark ==> Wrapping(c)
    ensures Unwraps(s, Unwrap(s, mark))
  {
    SameUnwraps(s);
    if Starts(s, mark) && Ends(s, mark) {
      forall i | 0 <= i < |mark| || |s| - |mark| <= i < |s| ensures Wrapping(s[i]) {
        assert i < |mark| ==> s[i] == mark[i];
        assert i >= |s| - |mark| ==> s[i] == mark[i - (|s| - |mark|)];
      }
      InsideUnwraps(s, |mark|);
    }
  }

  lemma UnquoteUnwraps(s: string)
    ensures Unwraps(s, Unquote(s))
  {
    SameUnwraps(s);
    if s != "" && Wrapping(s[0]) && Wrapping(s[|s| - 1]) { InsideUnwraps(s, 1); }
  }

  lemma BeheadUnwraps(s: string)
    ensures Unwraps(s, Behead(s))
  {
    SameUnwraps(s);
    if Starts(s, TAG) {
      FrontUnwraps(s);
      TrimUnwraps(s[3..]);
      UnwrapsWithin(s, s[3..], Behead(s));
    }
  }

  lemma FrontUnwraps(s: string)
    requires Starts(s, TAG)
    ensures Unwraps(s, s[3..])
  {
    CutUnwraps(s, 3, 0);
    assert s[3..|s| - 0] == s[3..];
  }

  lemma CurtailUnwraps(s: string)
    ensures Unwraps(s, Curtail(s))
  {
    SameUnwraps(s);
    if Ends(s, TAG) {
      BackUnwraps(s);
      TrimUnwraps(s[..|s| - 3]);
      UnwrapsWithin(s, s[..|s| - 3], Curtail(s));
    }
  }

  lemma BackUnwraps(s: string)
    requires Ends(s, TAG)
    ensures Unwraps(s, s[..|s| - 3])
  {
    forall k | |s| - 3 <= k < |s| ensures s[k] == TAG[k - (|s| - 3)] {
      assert s[|s| - 3..][k - (|s| - 3)] == s[k];
    }
    CutUnwraps(s, 0, 3);
    assert s[0..|s| - 3] == s[..|s| - 3];
  }

  lemma RoundUnwraps(s: string)
    ensures Unwraps(s, Round(s))
  {
    hide Unwraps, Wrapping, Unwrap, Unquote, Behead, Curtail;
    var a := Unwrap(s, TAG);
    var b := Unwrap(a, "\U{2502}");
    var c := Unwrap(b, "|");
    var d := Unquote(c);
    var e := Behead(d);
    MarksWrap();
    UnwrapUnwraps(s, TAG);
    UnwrapUnwraps(a, "\U{2502}");
    UnwrapsWithin(s, a, b);
    UnwrapUnwraps(b, "|");
    UnwrapsWithin(s, b, c);
    UnquoteUnwraps(c);
    UnwrapsWithin(s, c, d);
    BeheadUnwraps(d);
    UnwrapsWithin(s, d, e);
    CurtailUnwraps(e);
    UnwrapsWithin(s, e, Curtail(e));
  }

  lemma MarksWrap()
    ensures forall c :: c in TAG || c in "|" || c in "\U{2502}" ==> Wrapping(c)
  {
  }

  lemma {:induction false} SettleUnwraps(s: string)
    ensures Unwraps(s, Settle(s))
    decreases |s|
  {
    RoundPeels(s);
    SameUnwraps(s);
    if Round(s) != s {
      RoundUnwraps(s);
      SettleUnwraps(Round(s));
      UnwrapsWithin(s, Round(s), Settle(s));
    }
  }

  /** Sanitizing takes off wrapping and nothing else: the path stands in the text with only wrapping around it. */
  lemma SanitizedStandsInText(text: string)
    ensures Unwraps(text, if Sanitized(text).Path? then Sanitized(text).text else "")
  {
    TrimUnwraps(text);
    SettleUnwraps(Trim(text));
    UnwrapsWithin(text, Trim(text), Settle(Trim(text)));
  }
}
