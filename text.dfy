/** Python's str.split, str.join, str.strip, `in` and str.replace on strings, with the facts about them
    that the rest of the model uses. */
module Text {

  /** The characters `str.strip()` removes that can occur in the files the scripts read. */
  predicate IsSpace(ch: char) {
    ch == ' ' || ch == '\t' || ch == '\n' || ch == '\r' || ch == '\U{B}' || ch == '\U{C}'
  }

  function TrimStart(s: string): (r: string)
    ensures |r| <= |s| && r == s[|s| - |r|..]
    ensures r == [] || !IsSpace(r[0])
  {
    if |s| > 0 && IsSpace(s[0]) then TrimStart(s[1..]) else s
  }

  function TrimEnd(s: string): (r: string)
    ensures |r| <= |s| && r == s[..|r|]
    ensures r == [] || !IsSpace(r[|r| - 1])
  {
    if |s| > 0 && IsSpace(s[|s| - 1]) then TrimEnd(s[..|s| - 1]) else s
  }

  /** `s.strip()`: leading and trailing whitespace removed. */
  function Strip(s: string): string {
    TrimEnd(TrimStart(s))
  }

  /** A string that starts and ends with a non-space character is its own strip. */
  lemma StripKeeps(s: string)
    requires s == [] || (!IsSpace(s[0]) && !IsSpace(s[|s| - 1]))
    ensures Strip(s) == s
  {
  }

  /** `s.split(c)` for a one-character separator: the pieces between the separators, in order. */
  function Split(s: string, c: char): (r: seq<string>)
    ensures |r| >= 1
  {
    if |s| == 0 then [""]
    else
      var rest := Split(s[1..], c);
      if s[0] == c then [""] + rest else [[s[0]] + rest[0]] + rest[1..]
  }

  /** No piece of a split holds the separator. */
  lemma {:induction false} SplitPieces(s: string, c: char)
    ensures forall i :: 0 <= i < |Split(s, c)| ==> c !in Split(s, c)[i]
  {
    if |s| > 0 {
      SplitPieces(s[1..], c);
    }
  }

  /** `c.join(parts)`. */
  function Join(parts: seq<string>, c: char): string {
    if |parts| == 0 then ""
    else if |parts| == 1 then parts[0]
    else parts[0] + [c] + Join(parts[1..], c)
  }

  /** Joining the pieces of a split gives back the string. */
  lemma {:induction false} JoinSplit(s: string, c: char)
    ensures Join(Split(s, c), c) == s
  {
    if |s| > 0 {
      JoinSplit(s[1..], c);
      var rest := Split(s[1..], c);
      assert s == [s[0]] + s[1..];
      if s[0] == c {
        assert Split(s, c) == [""] + rest;
        assert ([""] + rest)[1..] == rest;
      } else if |rest| > 1 {
        assert Split(s, c) == [[s[0]] + rest[0]] + rest[1..];
        assert Join(rest, c) == rest[0] + [c] + Join(rest[1..], c);
      }
    }
  }

  lemma {:induction false} SplitNoSeparator(x: string, c: char)
    requires c !in x
    ensures Split(x, c) == [x]
  {
    if |x| > 0 {
      SplitNoSeparator(x[1..], c);
      assert x == [x[0]] + x[1..];
    }
  }

  /** The text before the first `c`, or all of `s` when it has none. */
  function BeforeFirst(s: string, c: char): (r: string)
    ensures c !in r && |r| <= |s| && r == s[..|r|]
    ensures |r| < |s| ==> s[|r|] == c
  {
    if s == [] || s[0] == c then []
    else [s[0]] + BeforeFirst(s[1..], c)
  }

  /** The first piece of a split is the text before the first separator. */
  lemma {:induction false} SplitHead(s: string, c: char)
    ensures Split(s, c)[0] == BeforeFirst(s, c)
  {
    if |s| > 0 {
      SplitHead(s[1..], c);
    }
  }

  lemma {:induction false} SplitAtFirst(x: string, c: char, y: string)
    requires c !in x
    ensures Split(x + [c] + y, c) == [x] + Split(y, c)
  {
    if |x| == 0 {
      assert (x + [c] + y)[1..] == y;
    } else {
      SplitAtFirst(x[1..], c, y);
      assert (x + [c] + y)[1..] == x[1..] + [c] + y;
      assert [x[0]] + x[1..] == x;
    }
  }

  /** Splitting a join of separator-free pieces gives back the pieces. */
  lemma {:induction false} SplitJoin(parts: seq<string>, c: char)
    requires |parts| >= 1
    requires forall i :: 0 <= i < |parts| ==> c !in parts[i]
    ensures Split(Join(parts, c), c) == parts
  {
    if |parts| == 1 {
      SplitNoSeparator(parts[0], c);
    } else {
      SplitJoin(parts[1..], c);
      SplitAtFirst(parts[0], c, Join(parts[1..], c));
      assert [parts[0]] + parts[1..] == parts;
    }
  }

  /** Joining with one more piece at the end appends the separator and that piece. */
  lemma {:induction false} JoinSnoc(parts: seq<string>, c: char, last: string)
    requires |parts| >= 1
    ensures Join(parts + [last], c) == Join(parts, c) + [c] + last
  {
    if |parts| > 1 {
      JoinSnoc(parts[1..], c, last);
      assert (parts + [last])[1..] == parts[1..] + [last];
    }
  }

  /** `sub in s`. */
  function Contains(s: string, sub: string): bool
    decreases |s|
  {
    if |s| < |sub| then false
    else s[..|sub|] == sub || Contains(s[1..], sub)
  }

  lemma {:induction false} ContainsPrepend(a: string, b: string, sub: string)
    requires Contains(b, sub)
    ensures Contains(a + b, sub)
  {
    assert |b| >= |sub|;
    if |a| == 0 {
      assert a + b == b;
    } else {
      ContainsPrepend(a[1..], b, sub);
      assert (a + b)[1..] == a[1..] + b;
      assert |a + b| >= |sub|;
    }
  }

  lemma {:induction false} ContainsAppend(b: string, c: string, sub: string)
    requires Contains(b, sub)
    ensures Contains(b + c, sub)
  {
    if b[..|sub|] == sub {
      assert (b + c)[..|sub|] == b[..|sub|];
    } else {
      ContainsAppend(b[1..], c, sub);
      assert (b + c)[1..] == b[1..] + c;
    }
  }

  /** A string holding `sub` somewhere inside still holds it with text around it. */
  lemma ContainsInside(a: string, b: string, c: string, sub: string)
    requires Contains(b, sub)
    ensures Contains(a + b + c, sub)
  {
    ContainsAppend(b, c, sub);
    ContainsPrepend(a, b + c, sub);
    assert a + b + c == a + (b + c);
  }

  lemma {:induction false} ContainsItself(s: string)
    ensures Contains(s, s)
  {
    assert s[..|s|] == s;
  }

  /** `s.replace(p, r)`: every occurrence of `p`, scanning from the left and without overlaps,
      replaced by `r`. */
  function ReplaceAll(s: string, p: string, r: string): string
    requires |p| > 0
    decreases |s|
  {
    if |s| < |p| then s
    else if s[..|p|] == p then r + ReplaceAll(s[|p|..], p, r)
    else [s[0]] + ReplaceAll(s[1..], p, r)
  }

  /** A string without `p` is left as it is. */
  lemma {:induction false} ReplaceAbsent(s: string, p: string, r: string)
    requires |p| > 0 && !Contains(s, p)
    ensures ReplaceAll(s, p, r) == s
  {
    if |s| >= |p| {
      ReplaceAbsent(s[1..], p, r);
    }
  }

  /** Every character of the result comes from the input or from the replacement. */
  lemma {:induction false} ReplaceChars(s: string, p: string, r: string)
    requires |p| > 0
    ensures forall ch :: ch in ReplaceAll(s, p, r) ==> ch in s || ch in r
  {
    if |s| >= |p| {
      if s[..|p|] == p {
        ReplaceChars(s[|p|..], p, r);
      } else {
        ReplaceChars(s[1..], p, r);
      }
    }
  }

  /** Replacing a one-character pattern works character by character, so it distributes over
      concatenation. */
  lemma ReplaceCharStep(s: string, c: char, r: string)
    requires |s| > 0
    ensures ReplaceAll(s, [c], r) == (if s[0] == c then r else [s[0]]) + ReplaceAll(s[1..], [c], r)
  {
    assert s[..1] == [c] <==> s[0] == c;
  }

  lemma {:induction false} ReplaceCharConcat(a: string, b: string, c: char, r: string)
    ensures ReplaceAll(a + b, [c], r) == ReplaceAll(a, [c], r) + ReplaceAll(b, [c], r)
  {
    if |a| == 0 {
      assert a + b == b;
    } else {
      var t := a + b;
      assert t[0] == a[0] && t[1..] == a[1..] + b;
      ReplaceCharConcat(a[1..], b, c, r);
      ReplaceCharStep(t, c, r);
      ReplaceCharStep(a, c, r);
    }
  }

  /** After replacing a one-character pattern by text without that character, none is left. */
  lemma {:induction false} ReplaceCharRemovesAll(s: string, c: char, r: string)
    requires c !in r
    ensures c !in ReplaceAll(s, [c], r)
  {
    if |s| >= 1 {
      ReplaceCharRemovesAll(s[1..], c, r);
      if s[..1] != [c] {
        assert s[0] != c;
      }
    }
  }

  /** A prefix of a replacement result either copies the input unchanged or already shows a
      character that came from the replacement. */
  lemma {:induction false} ReplacePrefix(t: string, p: string, r: string, k: nat)
    requires |p| > 0 && |r| > 0
    requires k <= |ReplaceAll(t, p, r)|
    ensures (k <= |t| && ReplaceAll(t, p, r)[..k] == t[..k])
         || (exists i :: 0 <= i < k && ReplaceAll(t, p, r)[i] in r)
  {
    var x := ReplaceAll(t, p, r);
    if |t| < |p| || k == 0 {
    } else if t[..|p|] == p {
      assert x[0] == r[0];
    } else {
      var y := ReplaceAll(t[1..], p, r);
      assert x == [t[0]] + y;
      ReplacePrefix(t[1..], p, r, k - 1);
      if k - 1 <= |t[1..]| && y[..k - 1] == t[1..][..k - 1] {
        assert x[..k] == [t[0]] + y[..k - 1];
        assert t[..k] == [t[0]] + t[1..][..k - 1];
      } else {
        var i :| 0 <= i < k - 1 && y[i] in r;
        assert x[i + 1] == y[i];
      }
    }
  }

  /** An occurrence of `p` cannot start inside text made of characters foreign to `p`. */
  lemma {:induction false} NoMatchAcrossForeign(f: string, x: string, p: string)
    requires |p| > 0
    requires forall i :: 0 <= i < |f| ==> f[i] !in p
    requires !Contains(x, p)
    ensures !Contains(f + x, p)
  {
    if |f| == 0 {
      assert f + x == x;
    } else {
      if |f + x| >= |p| {
        assert (f + x)[..|p|][0] == f[0] && f[0] !in p && p[0] in p;
      }
      NoMatchAcrossForeign(f[1..], x, p);
      assert (f + x)[1..] == f[1..] + x;
    }
  }

  /** When `s` does not start with `p`, neither does its replacement. */
  lemma HeadNoMatch(s: string, p: string, r: string)
    requires |p| > 0 && |r| > 0
    requires forall i :: 0 <= i < |r| ==> r[i] !in p
    requires |s| >= |p| && s[..|p|] != p
    ensures var x := [s[0]] + ReplaceAll(s[1..], p, r); !(|x| >= |p| && x[..|p|] == p)
  {
    var y := ReplaceAll(s[1..], p, r);
    var x := [s[0]] + y;
    if |x| >= |p| {
      ReplacePrefix(s[1..], p, r, |p| - 1);
      if |p| - 1 <= |s[1..]| && y[..|p| - 1] == s[1..][..|p| - 1] {
        assert x[..|p|] == [s[0]] + y[..|p| - 1];
        assert s[..|p|] == [s[0]] + s[1..][..|p| - 1];
      } else {
        var i :| 0 <= i < |p| - 1 && y[i] in r;
        assert x[..|p|][i + 1] == y[i];
        var j :| 0 <= j < |r| && r[j] == y[i];
        assert y[i] !in p;
      }
    }
  }

  /** Replacing `p` by a non-empty text that shares no character with `p` leaves no occurrence of
      `p` behind. */
  lemma {:induction false} ReplaceRemovesAll(s: string, p: string, r: string)
    requires |p| > 0 && |r| > 0
    requires forall i :: 0 <= i < |r| ==> r[i] !in p
    ensures !Contains(ReplaceAll(s, p, r), p)
  {
    if |s| < |p| {
      assert ReplaceAll(s, p, r) == s;
    } else if s[..|p|] == p {
      ReplaceRemovesAll(s[|p|..], p, r);
      NoMatchAcrossForeign(r, ReplaceAll(s[|p|..], p, r), p);
    } else {
      var y := ReplaceAll(s[1..], p, r);
      ReplaceRemovesAll(s[1..], p, r);
      HeadNoMatch(s, p, r);
      var x := [s[0]] + y;
      assert x[1..] == y;
    }
  }
}
