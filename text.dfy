/** The parts of Python 2's `str` API that the survey relies on:
    `split(sep)`, `strip()`, `str(n)` for a non-negative integer. */
module Text {

  predicate IsPrefix(p: string, s: string) {
    |p| <= |s| && s[..|p|] == p
  }

  predicate IsSuffix(p: string, s: string) {
    |p| <= |s| && s[|s| - |p|..] == p
  }

  /** `t` occurs in `s` starting at index `i`. */
  predicate OccursAt(t: string, s: string, i: int) {
    0 <= i && i + |t| <= |s| && s[i..i + |t|] == t
  }

  /** Python's `t in s` for strings. */
  predicate Contains(s: string, t: string) {
    exists i :: 0 <= i <= |s| - |t| && OccursAt(t, s, i)
  }

  /** Python's `s.split(sep)` for a non-empty separator: cut at every
      leftmost, non-overlapping occurrence of `sep`. */
  function Split(s: string, sep: string): (pieces: seq<string>)
    requires |sep| > 0
    ensures |pieces| >= 1
    decreases |s|
  {
    if |s| < |sep| then [s]
    else if s[..|sep|] == sep then [""] + Split(s[|sep|..], sep)
    else
      var rest := Split(s[1..], sep);
      [[s[0]] + rest[0]] + rest[1..]
  }

  /** Python's `sep.join(parts)`. */
  function Join(parts: seq<string>, sep: string): string {
    if |parts| == 0 then ""
    else if |parts| == 1 then parts[0]
    else parts[0] + sep + Join(parts[1..], sep)
  }

  lemma {:induction false} JoinFirstIsPrefix(parts: seq<string>, sep: string)
    requires |parts| > 0
    ensures IsPrefix(parts[0], Join(parts, sep))
  {
    if |parts| > 1 {
      var j := Join(parts, sep);
      assert j == parts[0] + (sep + Join(parts[1..], sep));
      assert j[..|parts[0]|] == parts[0];
    }
  }

  /** Joining the pieces with the separator gives back the string. */
  lemma {:induction false} JoinSplit(s: string, sep: string)
    requires |sep| > 0
    ensures Join(Split(s, sep), sep) == s
    decreases |s|
  {
    if |s| < |sep| {
    } else if s[..|sep|] == sep {
      JoinSplit(s[|sep|..], sep);
      JoinSplitAtSep(s, sep);
    } else {
      JoinSplit(s[1..], sep);
      JoinSplitAtChar(s, sep);
    }
  }

  lemma JoinSplitAtSep(s: string, sep: string)
    requires |sep| > 0 && |s| >= |sep| && s[..|sep|] == sep
    requires Join(Split(s[|sep|..], sep), sep) == s[|sep|..]
    ensures Join(Split(s, sep), sep) == s
  {
    var tail := s[|sep|..];
    var rest := Split(tail, sep);
    assert Split(s, sep) == [""] + rest;
    JoinConsEmpty(rest, sep);
    assert Join(Split(s, sep), sep) == s[..|sep|] + tail;
    assert s == s[..|sep|] + tail;
  }

  lemma JoinConsEmpty(rest: seq<string>, sep: string)
    requires |rest| >= 1
    ensures Join([""] + rest, sep) == sep + Join(rest, sep)
  {
    var pieces := [""] + rest;
    assert pieces[0] == "" && pieces[1..] == rest;
  }

  lemma JoinSplitAtChar(s: string, sep: string)
    requires |sep| > 0 && |s| >= |sep| && s[..|sep|] != sep
    requires Join(Split(s[1..], sep), sep) == s[1..]
    ensures Join(Split(s, sep), sep) == s
  {
    var rest := Split(s[1..], sep);
    assert Split(s, sep) == [[s[0]] + rest[0]] + rest[1..];
    JoinConsChar(s[0], rest, sep);
    assert s == [s[0]] + s[1..];
  }

  lemma JoinConsChar(c: char, rest: seq<string>, sep: string)
    requires |rest| >= 1
    ensures Join([[c] + rest[0]] + rest[1..], sep) == [c] + Join(rest, sep)
  {
    var pieces := [[c] + rest[0]] + rest[1..];
    if |rest| > 1 {
      assert pieces[1..] == rest[1..];
      var tail := Join(rest[1..], sep);
      assert Join(pieces, sep) == ([c] + rest[0]) + sep + tail;
      assert Join(rest, sep) == rest[0] + sep + tail;
      assert ([c] + rest[0]) + sep + tail == [c] + (rest[0] + sep + tail);
    }
  }

  /** No piece returned by `split` contains the separator. */
  lemma {:induction false} SplitPiecesFree(s: string, sep: string)
    requires |sep| > 0
    ensures forall k :: 0 <= k < |Split(s, sep)| ==> !Contains(Split(s, sep)[k], sep)
    decreases |s|
  {
    var pieces := Split(s, sep);
    if |s| < |sep| {
      forall i | OccursAt(sep, s, i) ensures false { }
    } else if s[..|sep|] == sep {
      var rest := Split(s[|sep|..], sep);
      SplitPiecesFree(s[|sep|..], sep);
      assert pieces == [""] + rest;
      forall k | 0 <= k < |pieces| ensures !Contains(pieces[k], sep) {
        if k == 0 {
          forall i | OccursAt(sep, pieces[0], i) ensures false { }
        } else {
          assert pieces[k] == rest[k - 1];
        }
      }
    } else {
      var rest := Split(s[1..], sep);
      SplitPiecesFree(s[1..], sep);
      JoinSplit(s[1..], sep);
      JoinFirstIsPrefix(rest, sep);
      var first := [s[0]] + rest[0];
      assert pieces == [first] + rest[1..];
      assert first == s[..|first|];
      forall k | 0 <= k < |pieces| ensures !Contains(pieces[k], sep) {
        if k == 0 {
          forall i | 0 <= i <= |first| - |sep| ensures !OccursAt(sep, first, i) {
            if i > 0 {
              assert first[i..i + |sep|] == rest[0][i - 1..i - 1 + |sep|];
              assert !OccursAt(sep, rest[0], i - 1);
            }
          }
        } else {
          assert pieces[k] == rest[k];
        }
      }
    }
  }

  /** For a one-character separator, "contains no separator" is "the
      character does not occur". */
  lemma NotContainsChar(p: string, c: char)
    requires !Contains(p, [c])
    ensures c !in p
  {
    if c in p {
      var i :| 0 <= i < |p| && p[i] == c;
      assert OccursAt([c], p, i);
    }
  }

  /** Splitting a string that starts with a separator-free prefix `a`. */
  lemma {:induction false} SplitFreePrefix(a: string, t: string, c: char)
    requires c !in a
    ensures Split(a + t, [c]) == [a + Split(t, [c])[0]] + Split(t, [c])[1..]
    decreases |a|
  {
    if |a| > 0 {
      var s := a + t;
      assert s[0] == a[0] && s[..1] != [c];
      assert s[1..] == a[1..] + t;
      SplitFreePrefix(a[1..], t, c);
      var rest := Split(s[1..], [c]);
      var pt := Split(t, [c]);
      assert rest == [a[1..] + pt[0]] + pt[1..];
      assert Split(s, [c]) == [[s[0]] + rest[0]] + rest[1..];
      assert [s[0]] + rest[0] == a + pt[0];
      assert rest[1..] == pt[1..];
    } else {
      assert a == "" && a + t == t;
      var pt := Split(t, [c]);
      assert a + pt[0] == pt[0];
      assert pt == [pt[0]] + pt[1..];
    }
  }

  /** A separator-free string splits into itself alone. */
  lemma SplitFree(a: string, c: char)
    requires c !in a
    ensures Split(a, [c]) == [a]
  {
    SplitFreePrefix(a, "", c);
    assert a + "" == a;
  }

  /** `a + c + b` with `a`, `b` free of `c` splits into exactly `[a, b]`. */
  lemma SplitTwo(a: string, b: string, c: char)
    requires c !in a && c !in b
    ensures Split(a + [c] + b, [c]) == [a, b]
  {
    var t := [c] + b;
    SplitFree(b, c);
    assert t[..1] == [c] && t[1..] == b;
    assert Split(t, [c]) == [""] + Split(b, [c]);
    assert Split(t, [c]) == ["", b];
    SplitFreePrefix(a, t, c);
    assert a + "" == a;
    assert a + [c] + b == a + t;
  }

  /** Python 2 `string.whitespace`: space, tab, LF, VT, FF, CR. */
  predicate IsSpace(c: char) {
    c == ' ' || '\t' <= c <= '\r'
  }

  function StripLeft(s: string): (r: string)
    ensures IsSuffix(r, s)
    ensures r == [] || !IsSpace(r[0])
    ensures forall i :: 0 <= i < |s| - |r| ==> IsSpace(s[i])
  {
    if |s| > 0 && IsSpace(s[0]) then StripLeft(s[1..]) else s
  }

  function StripRight(s: string): (r: string)
    ensures IsPrefix(r, s)
    ensures r == [] || !IsSpace(r[|r| - 1])
    ensures forall i :: |r| <= i < |s| ==> IsSpace(s[i])
  {
    if |s| > 0 && IsSpace(s[|s| - 1]) then StripRight(s[..|s| - 1]) else s
  }

  /** `r` is `s[i..i + |r|]` and everything of `s` around it is whitespace. */
  predicate StrippedAt(r: string, s: string, i: int) {
    0 <= i <= |s| - |r| && s[i..i + |r|] == r
    && (forall k :: 0 <= k < i ==> IsSpace(s[k]))
    && (forall k :: i + |r| <= k < |s| ==> IsSpace(s[k]))
  }

  /** Python's `s.strip()`: the result is `s` without its leading and
      trailing whitespace. */
  function Strip(s: string): (r: string)
    ensures r == [] || (!IsSpace(r[0]) && !IsSpace(r[|r| - 1]))
    ensures exists i :: StrippedAt(r, s, i)
  {
    var l := StripLeft(s);
    var r := StripRight(l);
    StrippedAtOf(s, l, r);
    if r == [] then r
    else
      PrefixKeepsFirst(l, r);
      r
  }

  lemma PrefixKeepsFirst(l: string, r: string)
    requires IsPrefix(r, l) && r != []
    ensures r[0] == l[0]
  {
    assert r[0] == l[..|r|][0];
  }

  /** A prefix `r` of a suffix `l` of `s`, with only whitespace cut off
      on either side, is `s` stripped at the start of `l`. */
  lemma StrippedAtOf(s: string, l: string, r: string)
    requires IsSuffix(l, s) && IsPrefix(r, l)
    requires forall k :: 0 <= k < |s| - |l| ==> IsSpace(s[k])
    requires forall k :: |r| <= k < |l| ==> IsSpace(l[k])
    ensures StrippedAt(r, s, |s| - |l|)
  {
    var i := |s| - |l|;
    assert s[i..i + |r|] == l[..|r|];
    forall k | i + |r| <= k < |s| ensures IsSpace(s[k]) {
      assert s[k] == l[k - i];
    }
  }

  /** A leading whitespace character makes no difference to `strip`. */
  lemma StripDropsLeadingSpace(s: string)
    requires |s| > 0 && IsSpace(s[0])
    ensures Strip(s) == Strip(s[1..])
  {
    assert StripLeft(s) == StripLeft(s[1..]);
  }

  /** Stripping keeps a line's first character when it is not
      whitespace. */
  lemma StripKeepsFirst(s: string)
    requires |s| > 0 && !IsSpace(s[0])
    ensures |Strip(s)| > 0 && Strip(s)[0] == s[0]
  {
    var r := Strip(s);
    var i :| StrippedAt(r, s, i);
    assert r[0] == s[i..i + |r|][0];
  }

  function DigitChar(d: nat): (c: char)
    requires d < 10
    ensures '0' <= c <= '9'
  {
    ('0' as int + d) as char
  }

  /** Python's `str(n)` for a non-negative integer: decimal digits, no
      leading zero. */
  function NatToString(n: nat): (r: string)
    ensures |r| >= 1
    ensures forall i :: 0 <= i < |r| ==> '0' <= r[i] <= '9'
    ensures n >= 10 <==> |r| >= 2
  {
    if n < 10 then [DigitChar(n)] else NatToString(n / 10) + [DigitChar(n % 10)]
  }

  /** Python's `%d` (and `str`) of any integer: a minus sign before the
      digits of a negative value. */
  function IntToString(n: int): (r: string)
    ensures |r| >= 1
    ensures r[0] == '-' <==> n < 0
  {
    if n < 0 then "-" + NatToString(-n) else NatToString(n)
  }

  /** Different numbers print differently. */
  lemma {:induction false} NatToStringInjective(m: nat, n: nat)
    requires NatToString(m) == NatToString(n)
    ensures m == n
  {
    var a, b := NatToString(m), NatToString(n);
    if m >= 10 && n >= 10 {
      assert a[..|a| - 1] == NatToString(m / 10);
      assert b[..|b| - 1] == NatToString(n / 10);
      NatToStringInjective(m / 10, n / 10);
      assert a[|a| - 1] == DigitChar(m % 10);
      assert b[|b| - 1] == DigitChar(n % 10);
    } else {
      assert a[0] == DigitChar(m) || m >= 10;
    }
  }
}
