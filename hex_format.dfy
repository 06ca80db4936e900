/** `hexdump` and `fmt_str` (tlsa_survey.py:37-42): how certificate
    bytes and digests are turned into the hex text that is compared
    with a TLSA record's association data. */
module HexFormat {
  import opened Basics

  /** The lower-case hex digit that Python's `encode('hex')` writes. */
  function HexDigit(d: nat): (c: char)
    requires d < 16
    ensures '0' <= c <= '9' || 'a' <= c <= 'f'
  {
    if d < 10 then ('0' as int + d) as char else ('a' as int + d - 10) as char
  }

  function HexByte(b: byte): string {
    [HexDigit(b as int / 16), HexDigit(b as int % 16)]
  }

  /** `hexdump(s)`: two lower-case hex digits per byte, no separator. */
  function Hexdump(bs: seq<byte>): (h: string)
    ensures |h| == 2 * |bs|
    ensures forall i :: 0 <= i < |h| ==> '0' <= h[i] <= '9' || 'a' <= h[i] <= 'f'
  {
    if |bs| == 0 then "" else HexByte(bs[0]) + Hexdump(bs[1..])
  }

  /** `s.replace(' ', '')`: only the space character is removed. */
  function RemoveSpaces(s: string): (r: string)
    ensures ' ' !in r
    ensures |r| <= |s|
  {
    if |s| == 0 then ""
    else if s[0] == ' ' then RemoveSpaces(s[1..])
    else [s[0]] + RemoveSpaces(s[1..])
  }

  /** ASCII upper-casing of one character, as Python 2 `str.upper()`. */
  function UpperChar(c: char): char {
    if 'a' <= c <= 'z' then (c as int - 32) as char else c
  }

  function ToUpper(s: string): (r: string)
    ensures |r| == |s|
  {
    seq(|s|, i requires 0 <= i < |s| => UpperChar(s[i]))
  }

  /** `fmt_str(s)`: drop every space, then upper-case. */
  function FmtStr(s: string): (r: string)
    ensures ' ' !in r
    ensures forall i :: 0 <= i < |r| ==> !('a' <= r[i] <= 'z')
    ensures |r| <= |s|
  {
    var t := RemoveSpaces(s);
    var r := ToUpper(t);
    assert forall i :: 0 <= i < |r| ==> r[i] == UpperChar(t[i]);
    r
  }

  /** The value of a hex digit of either case. */
  function HexValue(c: char): (v: Option<nat>)
    ensures v.Some? ==> v.value < 16
  {
    if '0' <= c <= '9' then Some(c as int - '0' as int)
    else if 'a' <= c <= 'f' then Some(c as int - 'a' as int + 10)
    else if 'A' <= c <= 'F' then Some(c as int - 'A' as int + 10)
    else None
  }

  /** Reads hex text (either case) back into bytes: the inverse of
      `Hexdump`, used to state what a hex comparison decides. */
  function Unhex(s: string): Option<seq<byte>>
  {
    if |s| == 0 then Some([])
    else if |s| == 1 then None
    else
      match (HexValue(s[0]), HexValue(s[1]), Unhex(s[2..]))
      case (Some(h), Some(l), Some(rest)) => Some([(h * 16 + l) as byte] + rest)
      case _ => None
  }

  lemma HexValueOfDigit(d: nat)
    requires d < 16
    ensures HexValue(HexDigit(d)) == Some(d)
    ensures HexValue(UpperChar(HexDigit(d))) == Some(d)
  {
  }

  lemma HexValueUpper(c: char)
    ensures HexValue(UpperChar(c)) == HexValue(c)
  {
  }

  /** Reading hex back gives the bytes that were dumped. */
  lemma {:induction false} UnhexHexdump(bs: seq<byte>)
    ensures Unhex(Hexdump(bs)) == Some(bs)
  {
    if |bs| > 0 {
      var h := Hexdump(bs);
      var b := bs[0];
      assert h == HexByte(b) + Hexdump(bs[1..]);
      assert h[2..] == Hexdump(bs[1..]);
      UnhexHexdump(bs[1..]);
      HexValueOfDigit(b as int / 16);
      HexValueOfDigit(b as int % 16);
      assert (b as int / 16) * 16 + b as int % 16 == b as int;
      assert bs == [b] + bs[1..];
    }
  }

  /** Upper-casing never changes what hex text reads as. */
  lemma {:induction false} UnhexToUpper(s: string)
    ensures Unhex(ToUpper(s)) == Unhex(s)
    decreases |s|
  {
    if |s| >= 2 {
      var u := ToUpper(s);
      assert u[2..] == ToUpper(s[2..]);
      UnhexToUpper(s[2..]);
      HexValueUpper(s[0]);
      HexValueUpper(s[1]);
    }
  }

  lemma {:induction false} RemoveSpacesNoop(s: string)
    requires ' ' !in s
    ensures RemoveSpaces(s) == s
  {
    if |s| > 0 {
      assert s[1..] == s[|s| - |s[1..]|..];
      RemoveSpacesNoop(s[1..]);
      assert s == [s[0]] + s[1..];
    }
  }

  /** `fmt_str` of a dump still reads back as the dumped bytes. */
  lemma UnhexFmtHexdump(bs: seq<byte>)
    ensures Unhex(FmtStr(Hexdump(bs))) == Some(bs)
  {
    var h := Hexdump(bs);
    assert ' ' !in h;
    RemoveSpacesNoop(h);
    UnhexToUpper(h);
    UnhexHexdump(bs);
  }

  /** Comparing two dumps through `fmt_str` decides byte equality:
      neither the case-folding nor the space-removal can make two
      different byte strings compare equal. */
  lemma FmtHexdumpInjective(a: seq<byte>, b: seq<byte>)
    ensures FmtStr(Hexdump(a)) == FmtStr(Hexdump(b)) <==> a == b
  {
    UnhexFmtHexdump(a);
    UnhexFmtHexdump(b);
  }

  lemma HexdumpInjective(a: seq<byte>, b: seq<byte>)
    ensures Hexdump(a) == Hexdump(b) <==> a == b
  {
    UnhexHexdump(a);
    UnhexHexdump(b);
  }

  /** A hex digit that is not lower case is the upper-cased dump digit
      of its value. */
  lemma CharOfValue(c: char)
    requires HexValue(c).Some? && !('a' <= c <= 'z')
    ensures c == UpperChar(HexDigit(HexValue(c).value))
  {
  }

  lemma ToUpperAppend(s: string, t: string)
    ensures ToUpper(s + t) == ToUpper(s) + ToUpper(t)
  {
  }

  /** Two hex digits that are not lower case are the upper-cased dump of
      the byte they read as. */
  lemma HexPairUpper(c0: char, c1: char)
    requires HexValue(c0).Some? && !('a' <= c0 <= 'z')
    requires HexValue(c1).Some? && !('a' <= c1 <= 'z')
    ensures [c0, c1] == ToUpper(HexByte((HexValue(c0).value * 16 + HexValue(c1).value) as byte))
  {
    var h, l := HexValue(c0).value, HexValue(c1).value;
    var b := (h * 16 + l) as byte;
    assert b as int / 16 == h && b as int % 16 == l;
    CharOfValue(c0);
    CharOfValue(c1);
  }

  /** Hex text without lower-case letters is determined by the bytes it
      reads as: it is their upper-cased dump. */
  lemma {:induction false} UpperHexUnique(s: string, bs: seq<byte>)
    requires Unhex(s) == Some(bs)
    requires forall i :: 0 <= i < |s| ==> !('a' <= s[i] <= 'z')
    ensures s == ToUpper(Hexdump(bs))
    decreases |s|
  {
    if |s| > 0 {
      var b := (HexValue(s[0]).value * 16 + HexValue(s[1]).value) as byte;
      var rest := Unhex(s[2..]).value;
      assert bs == [b] + rest;
      UpperHexUnique(s[2..], rest);
      HexPairUpper(s[0], s[1]);
      assert Hexdump(bs) == HexByte(b) + Hexdump(rest);
      ToUpperAppend(HexByte(b), Hexdump(rest));
      assert s == [s[0], s[1]] + s[2..];
    }
  }

  /** What the comparison of `tlsa_match` decides: a text compares equal
      to the dump of `bs` through `fmt_str` exactly when, once formatted,
      it reads as hex for `bs`. */
  lemma FmtStrMatchesHex(t: string, bs: seq<byte>)
    ensures FmtStr(t) == FmtStr(Hexdump(bs)) <==> Unhex(FmtStr(t)) == Some(bs)
  {
    UnhexFmtHexdump(bs);
    if Unhex(FmtStr(t)) == Some(bs) {
      UpperHexUnique(FmtStr(t), bs);
      RemoveSpacesNoop(Hexdump(bs));
    }
  }

  lemma {:induction false} RemoveSpacesAppend(s: string, t: string)
    ensures RemoveSpaces(s + t) == RemoveSpaces(s) + RemoveSpaces(t)
  {
    if |s| > 0 {
      assert (s + t)[1..] == s[1..] + t;
      RemoveSpacesAppend(s[1..], t);
    } else {
      assert s + t == t;
    }
  }

  lemma FmtStrAppend(s: string, t: string)
    ensures FmtStr(s + t) == FmtStr(s) + FmtStr(t)
  {
    RemoveSpacesAppend(s, t);
  }

  /** A space anywhere in the text is ignored by `fmt_str`. */
  lemma FmtStrIgnoresSpace(s: string, i: nat)
    requires i <= |s|
    ensures FmtStr(s[..i] + " " + s[i..]) == FmtStr(s)
  {
    FmtStrAppend(s[..i] + " ", s[i..]);
    FmtStrAppend(s[..i], " ");
    FmtStrAppend(s[..i], s[i..]);
    assert s[..i] + s[i..] == s;
  }

  /** Two texts that agree up to ASCII case compare equal. */
  lemma {:induction false} FmtStrIgnoresCase(s: string, t: string)
    requires |s| == |t|
    requires forall i :: 0 <= i < |s| ==> UpperChar(s[i]) == UpperChar(t[i])
    ensures FmtStr(s) == FmtStr(t)
  {
    if |s| > 0 {
      FmtStrIgnoresCase(s[1..], t[1..]);
      FmtStrAppend([s[0]], s[1..]);
      FmtStrAppend([t[0]], t[1..]);
      assert [s[0]] + s[1..] == s && [t[0]] + t[1..] == t;
      assert s[0] == ' ' <==> t[0] == ' ';
    }
  }

  /** The examples of the comparison rule: "AABB", "aa bb" and "aabb"
      compare equal. */
  lemma FmtStrExamples()
    ensures FmtStr("AABB") == FmtStr("aa bb") == FmtStr("aabb") == "AABB"
  {
    FmtStrIgnoresSpace("aabb", 2);
    assert "aabb"[..2] + " " + "aabb"[2..] == "aa bb";
    FmtStrIgnoresCase("AABB", "aabb");
    assert RemoveSpaces("AABB") == "AABB";
  }

  /** Only the space is removed: a tab stays, so "aa\tbb" and "aabb" do
      not compare equal. */
  lemma FmtStrKeepsTabs()
    ensures FmtStr("aa\tbb") != FmtStr("aabb")
  {
    assert RemoveSpaces("aa\tbb") == "aa\tbb";
    assert |FmtStr("aabb")| <= 4;
  }
}
