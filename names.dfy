/** Domain-name helpers: `rm_last_dot`, `get_tld` (tlsa_survey.py:98-110,
    repeated verbatim at dnssec_tlsa_zone_num.py:54-57 and 69-76),
    `get_zone` (dnssec_tlsa_zone_num.py:59-67) and `fmt_tlsa_name`
    (tlsa_survey.py:276-277). */
module Names {
  import opened Text

  /** `rm_last_dot(s)`: drop one trailing '.', but never reduce "." to "". */
  function RmLastDot(s: string): (r: string)
    ensures r == s || r + "." == s
    ensures r != s <==> |s| > 1 && s[|s| - 1] == '.'
  {
    if |s| > 1 && s[|s| - 1] == '.' then s[..|s| - 1] else s
  }

  /** `n.split('.')`. */
  function Labels(n: string): (w: seq<string>)
    ensures |w| >= 1
  {
    Split(n, ".")
  }

  function LastLabel(n: string): string {
    var w := Labels(n);
    w[|w| - 1]
  }

  lemma {:induction false} JoinLast(parts: seq<string>, sep: string)
    requires |parts| >= 2
    ensures Join(parts, sep) == Join(parts[..|parts| - 1], sep) + sep + parts[|parts| - 1]
  {
    if |parts| > 2 {
      JoinLast(parts[1..], sep);
      assert parts[1..][..|parts| - 2] == parts[1..|parts| - 1];
      assert parts[..|parts| - 1][1..] == parts[1..|parts| - 1];
    }
  }

  /** What `split('.')` says about a name: every label is dot-free, the
      labels joined by '.' give the name, so there is more than one label
      exactly when the name contains a dot, and the last label is the
      suffix after the last dot. */
  lemma LabelsShape(m: string)
    ensures forall k :: 0 <= k < |Labels(m)| ==> '.' !in Labels(m)[k]
    ensures |Labels(m)| == 1 ==> Labels(m)[0] == m
    ensures |Labels(m)| > 1 <==> '.' in m
    ensures |Labels(m)| > 1 ==>
              m == Join(Labels(m)[..|Labels(m)| - 1], ".") + "." + LastLabel(m)
  {
    var w := Labels(m);
    SplitPiecesFree(m, ".");
    forall k | 0 <= k < |w| ensures '.' !in w[k] {
      NotContainsChar(w[k], '.');
    }
    JoinSplit(m, ".");
    if |w| > 1 {
      JoinLast(w, ".");
      var pre := Join(w[..|w| - 1], ".");
      assert m[|pre|] == '.';
    }
  }

  /** `get_tld(n)`: the last label of `rm_last_dot(n)`, or the whole
      (stripped) name when it has no dot. */
  function GetTld(n: string): string {
    var m := RmLastDot(n);
    var w := Split(m, ".");
    if |w| == 1 then m else w[|w| - 1]
  }

  /** The top-level zone is the last label of the name: dot-free, a
      suffix of it that follows a dot unless it is the whole name. */
  lemma GetTldShape(n: string)
    ensures var m, r := RmLastDot(n), GetTld(n);
            && r == LastLabel(m)
            && '.' !in r
            && IsSuffix(r, m)
            && (|r| < |m| ==> m[|m| - |r| - 1] == '.')
  {
    LabelsShape(RmLastDot(n));
  }

  /** `get_zone(n)`: the last two labels of `rm_last_dot(n)` joined by a
      dot, or the whole (stripped) name when it has a single label. */
  function GetZone(n: string): string {
    var m := RmLastDot(n);
    var w := Split(m, ".");
    if |w| == 1 then m else w[|w| - 2] + "." + w[|w| - 1]
  }

  /** The second-level zone keeps the last two labels of the name (all
      of it when it has one label) and is a suffix of it that follows a
      dot unless it is the whole name. Its last label is the top-level
      zone, so a second-level zone belongs to exactly one top-level
      zone. */
  lemma GetZoneShape(n: string)
    ensures var m, z := RmLastDot(n), GetZone(n);
            var w := Labels(m);
            && Labels(z) == (if |w| == 1 then w else w[|w| - 2..])
            && IsSuffix(z, m)
            && (|z| < |m| ==> m[|m| - |z| - 1] == '.')
            && LastLabel(z) == GetTld(n)
  {
    var m := RmLastDot(n);
    var w := Split(m, ".");
    LabelsShape(m);
    GetTldShape(n);
    if |w| > 1 {
      SplitTwo(w[|w| - 2], w[|w| - 1], '.');
      ZoneIsSuffix(w, m);
    }
  }

  lemma ZoneIsSuffix(w: seq<string>, m: string)
    requires |w| >= 2
    requires m == Join(w[..|w| - 1], ".") + "." + w[|w| - 1]
    ensures var z := w[|w| - 2] + "." + w[|w| - 1];
            IsSuffix(z, m) && (|z| < |m| ==> m[|m| - |z| - 1] == '.')
  {
    var init := w[..|w| - 1];
    if |init| == 1 {
      assert Join(init, ".") == w[|w| - 2];
    } else {
      JoinLast(init, ".");
      assert init[|init| - 1] == w[|w| - 2];
      var pre := Join(init[..|init| - 1], ".");
      assert m == pre + "." + (w[|w| - 2] + "." + w[|w| - 1]);
    }
  }

  /** Two names in the same second-level zone share their top-level zone. */
  lemma SameZoneSameTld(n1: string, n2: string)
    requires GetZone(n1) == GetZone(n2)
    ensures GetTld(n1) == GetTld(n2)
  {
    GetZoneShape(n1);
    GetZoneShape(n2);
  }

  /** `fmt_tlsa_name(s, port)`: the owner name of the TLSA records of a
      TCP service, `_<port>._tcp.<s>`. */
  function FmtTlsaName(s: string, port: nat): string {
    "_" + NatToString(port) + "._tcp." + s
  }

  /** Different endpoints query different TLSA owner names. */
  lemma TlsaNameInjective(a: string, p: nat, b: string, q: nat)
    requires FmtTlsaName(a, p) == FmtTlsaName(b, q)
    ensures a == b && p == q
  {
    var x, d1, d2 := FmtTlsaName(a, p), NatToString(p), NatToString(q);
    assert x == "_" + d1 + "._tcp." + a;
    assert x == "_" + d2 + "._tcp." + b;
    var k := if |d1| < |d2| then |d1| else |d2|;
    var y1, y2 := d1 + ".", d2 + ".";
    assert x[1 + k] == y1[k] == y2[k];
    assert d1 == x[1..1 + |d1|] == d2;
    NatToStringInjective(p, q);
    assert a == x[1 + |d1| + 6..] == b;
  }
}
