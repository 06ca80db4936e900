/** Matching one TLSA record against a certificate chain
    (tlsa_survey.py:52-96): the certificate-usage, selector and
    matching-type fields of section 2.1 of RFC 6698. X.509 parsing and
    the SHA-2 digests are outside the model: they are the functions of
    a `Crypto` value. */
module Matching {
  import opened Basics
  import opened HexFormat
  import opened Text

  /** A parsed certificate, seen only through its two DER encodings. */
  datatype X509 = X509(der: seq<byte>, pubkeyDer: seq<byte>)

  /** `M2Crypto.X509.load_cert_string` and the `hexdigest()` of
      `hashlib.sha256` / `hashlib.sha512`. */
  datatype Crypto = Crypto(
    load: string -> X509,
    sha256: seq<byte> -> string,
    sha512: seq<byte> -> string)

  /** One TLSA resource record (its `usage`, `selector`, `mtype` and
      `cert` attributes). */
  datatype TlsaRecord = TlsaRecord(usage: int, selector: int, mtype: int, cert: seq<byte>)

  /** A value of the `err_msg` dictionary: `True` under "BAD-PARA", the
      diagnostic text under "sni" or "norm". */
  datatype ErrEntry = BadParaFlag | Mismatch(text: string)

  type ErrMsg = map<string, ErrEntry>

  const BadParaKey := "BAD-PARA"
  const SniKey := "sni"
  const NormKey := "norm"

  /** The range check of is_valid: usage in 0..3, selector in 0..1,
      matching type in 0..2. */
  predicate ParamsValid(r: TlsaRecord) {
    r.usage in {0, 1, 2, 3} && r.selector in {0, 1} && r.mtype in {0, 1, 2}
  }

  /** The exit message of `tlsa_select` for an unknown selector. */
  function SelectorError(s: int): string {
    "[error] selector[" + IntToString(s) + "] is not valid\n"
  }

  /** `tlsa_select(s, cert)`: selector 0 is the whole certificate,
      selector 1 its SubjectPublicKeyInfo; any other value exits. */
  function TlsaSelect(s: int, cert: X509): (r: Fatal<seq<byte>>)
    ensures r.Exit? <==> s !in {0, 1}
    ensures s == 0 ==> r == Done(cert.der)
    ensures s == 1 ==> r == Done(cert.pubkeyDer)
    ensures r.Exit? ==> r == Exit(SelectorError(s))
  {
    if s == 0 then Done(cert.der)
    else if s == 1 then Done(cert.pubkeyDer)
    else Exit(SelectorError(s))
  }

  /** The exit message of `tlsa_match` for an unknown matching type
      (with the source's spelling). */
  function MatchingTypeError(mtype: int): string {
    "[error] mathing type[" + IntToString(mtype) + "] is not valid\n"
  }

  /** The hex text `tlsa_match` computes from the selected bytes: the
      bytes themselves (0), their SHA-256 (1) or SHA-512 (2) digest;
      any other matching type exits. */
  function MatchHex(crypto: Crypto, mtype: int, data: seq<byte>): (r: Fatal<string>)
    ensures r.Exit? <==> mtype !in {0, 1, 2}
    ensures mtype == 0 ==> r == Done(Hexdump(data))
    ensures mtype == 1 ==> r == Done(crypto.sha256(data))
    ensures mtype == 2 ==> r == Done(crypto.sha512(data))
    ensures r.Exit? ==> r == Exit(MatchingTypeError(mtype))
  {
    if mtype == 1 then Done(crypto.sha256(data))
    else if mtype == 2 then Done(crypto.sha512(data))
    else if mtype != 0 then Exit(MatchingTypeError(mtype))
    else Done(Hexdump(data))
  }

  /** The diagnostic `tlsa_match` stores on a mismatch. */
  function MismatchText(fromCert: string, fromDns: string): string {
    "# from cert:" + FmtStr(fromCert) + "\n# from DNS: " + FmtStr(fromDns)
  }

  /** The hex text computed for one certificate of the chain. */
  function CertHex(crypto: Crypto, r: TlsaRecord, pem: string): string
    requires ParamsValid(r)
  {
    MatchHex(crypto, r.mtype, TlsaSelect(r.selector, crypto.load(pem)).value).value
  }

  /** One certificate matches a record when its computed hex and the
      record's association data agree up to case and spaces. */
  predicate CertMatches(crypto: Crypto, r: TlsaRecord, pem: string)
    requires ParamsValid(r)
  {
    FmtStr(CertHex(crypto, r, pem)) == FmtStr(Hexdump(r.cert))
  }

  /** What is_valid decides: the parameters are in range and, for the
      trust-anchor usages 0 and 2, some certificate of the chain
      matches; for the end-entity usages 1 and 3, the first one does. */
  predicate Accepts(crypto: Crypto, certs: seq<string>, r: TlsaRecord)
    requires |certs| > 0
  {
    ParamsValid(r) &&
    if r.usage in {0, 2} then exists i :: 0 <= i < |certs| && CertMatches(crypto, r, certs[i])
    else CertMatches(crypto, r, certs[0])
  }

  /** `tlsa_match(mtype, cert_data, from_dns, err_msg, idx)`: the
      comparison, recording a diagnostic under `idx` on a mismatch. */
  method TlsaMatch(crypto: Crypto, mtype: int, certData: seq<byte>, fromDns: string,
                   errMsg: ErrMsg, idx: string)
    returns (r: Fatal<bool>, errOut: ErrMsg)
    ensures r.Exit? <==> mtype !in {0, 1, 2}
    ensures r.Exit? ==> r == Exit(MatchingTypeError(mtype)) && errOut == errMsg
    ensures r.Done? ==>
              var hex := MatchHex(crypto, mtype, certData).value;
              && (r.value <==> FmtStr(hex) == FmtStr(fromDns))
              && errOut == if r.value then errMsg else errMsg[idx := Mismatch(MismatchText(hex, fromDns))]
  {
    var hexData := Hexdump(certData);
    if mtype == 1 {
      hexData := crypto.sha256(certData);
    } else if mtype == 2 {
      hexData := crypto.sha512(certData);
    } else if mtype != 0 {
      return Exit(MatchingTypeError(mtype)), errMsg;
    }
    if FmtStr(hexData) == FmtStr(fromDns) {
      r, errOut := Done(true), errMsg;
    } else {
      r, errOut := Done(false), errMsg[idx := Mismatch(MismatchText(hexData, fromDns))];
    }
  }

  /** The diagnostic left behind by a failed comparison with `pem`. */
  function MismatchFor(crypto: Crypto, r: TlsaRecord, pem: string): ErrEntry
    requires ParamsValid(r)
  {
    Mismatch(MismatchText(CertHex(crypto, r, pem), Hexdump(r.cert)))
  }

  /** One comparison of is_valid: parse `pem`, select the bytes the
      record's selector names and compare them under its matching type.
      With in-range parameters neither exit can happen. */
  method MatchCert(crypto: Crypto, r: TlsaRecord, pem: string, errMsg: ErrMsg, idx: string)
    returns (m: bool, errOut: ErrMsg)
    requires ParamsValid(r)
    ensures m == CertMatches(crypto, r, pem)
    ensures errOut == if m then errMsg else errMsg[idx := MismatchFor(crypto, r, pem)]
  {
    var certObj := crypto.load(pem);
    var certData := TlsaSelect(r.selector, certObj);
    if certData.Exit? {
      assert false;
    }
    var res;
    res, errOut := TlsaMatch(crypto, r.mtype, certData.value, Hexdump(r.cert), errMsg, idx);
    if res.Exit? {
      assert false;
    }
    m := res.value;
  }

  /** Certificate `k` is the first of the chain to match, and the error
      dictionary holds the diagnostic of the certificate before it (or
      is unchanged when `k` is the first). */
  predicate FirstMatchLeaves(crypto: Crypto, certs: seq<string>, r: TlsaRecord, errMsg: ErrMsg, idx: string,
                             k: int, errOut: ErrMsg)
    requires ParamsValid(r) && 0 <= k < |certs|
  {
    && CertMatches(crypto, r, certs[k])
    && (forall j :: 0 <= j < k ==> !CertMatches(crypto, r, certs[j]))
    && errOut == if k == 0 then errMsg else errMsg[idx := MismatchFor(crypto, r, certs[k - 1])]
  }

  /** The trust-anchor branch of is_valid: try the certificates of the
      chain in order until one matches. */
  method MatchChain(crypto: Crypto, certs: seq<string>, r: TlsaRecord, errMsg: ErrMsg, idx: string)
    returns (ok: bool, errOut: ErrMsg)
    requires |certs| > 0 && ParamsValid(r)
    ensures ok <==> exists i :: 0 <= i < |certs| && CertMatches(crypto, r, certs[i])
    ensures !ok ==> errOut == errMsg[idx := MismatchFor(crypto, r, certs[|certs| - 1])]
    ensures ok ==>
              exists k :: 0 <= k < |certs| && FirstMatchLeaves(crypto, certs, r, errMsg, idx, k, errOut)
  {
    errOut := errMsg;
    var i := 0;
    while i < |certs|
      invariant 0 <= i <= |certs|
      invariant forall j :: 0 <= j < i ==> !CertMatches(crypto, r, certs[j])
      invariant errOut == if i == 0 then errMsg else errMsg[idx := MismatchFor(crypto, r, certs[i - 1])]
    {
      var prev := errOut;
      var m;
      m, errOut := MatchCert(crypto, r, certs[i], errOut, idx);
      if m {
        assert FirstMatchLeaves(crypto, certs, r, errMsg, idx, i, prev);
        return true, prev;
      }
      assert errOut == errMsg[idx := MismatchFor(crypto, r, certs[i])];
      i := i + 1;
    }
    return false, errOut;
  }

  /** `is_valid(certs, tlsa_ans, err_msg, idx)`. Out-of-range
      parameters set "BAD-PARA" and fail before any certificate is
      looked at, so the exits of tlsa_select and tlsa_match are never
      reached from here. The error entry under `idx` is the diagnostic
      of the last certificate that failed to match. */
  method IsValid(crypto: Crypto, certs: seq<string>, r: TlsaRecord, errMsg: ErrMsg, idx: string)
    returns (ok: bool, errOut: ErrMsg)
    requires |certs| > 0
    requires idx == SniKey || idx == NormKey
    ensures ok == Accepts(crypto, certs, r)
    ensures BadParaKey in errOut <==> BadParaKey in errMsg || !ParamsValid(r)
    ensures !ParamsValid(r) ==> errOut == errMsg[BadParaKey := BadParaFlag]
    ensures ParamsValid(r) && !ok ==>
              var last := if r.usage in {0, 2} then certs[|certs| - 1] else certs[0];
              errOut == errMsg[idx := MismatchFor(crypto, r, last)]
    ensures ParamsValid(r) && ok && r.usage in {1, 3} ==> errOut == errMsg
    ensures ParamsValid(r) && ok && r.usage in {0, 2} ==>
              exists k :: 0 <= k < |certs| && FirstMatchLeaves(crypto, certs, r, errMsg, idx, k, errOut)
  {
    if !(r.usage in {0, 1, 2, 3} && r.selector in {0, 1} && r.mtype in {0, 1, 2}) {
      return false, errMsg[BadParaKey := BadParaFlag];
    }
    assert idx != BadParaKey;
    if r.usage in {0, 2} {
      ok, errOut := MatchChain(crypto, certs, r, errMsg, idx);
    } else {
      ok, errOut := MatchCert(crypto, r, certs[0], errMsg, idx);
    }
  }

  /** A record with an out-of-range field is never accepted, whatever
      the chain holds. */
  lemma BadParamsNeverAccepted(crypto: Crypto, certs: seq<string>, r: TlsaRecord)
    requires |certs| > 0 && !ParamsValid(r)
    ensures !Accepts(crypto, certs, r)
  {
  }

  /** End-entity usages look at the leaf only: certificates after the
      first never change the verdict, even one that would match. */
  lemma EndEntityIgnoresRestOfChain(crypto: Crypto, leaf: string, rest: seq<string>, r: TlsaRecord)
    requires r.usage in {1, 3}
    ensures Accepts(crypto, [leaf] + rest, r) == Accepts(crypto, [leaf], r)
  {
  }

  /** Trust-anchor usages accept a chain exactly when some certificate of
      it matches: extending the chain adds exactly the new certificate's
      chance to match. */
  lemma TrustAnchorAnyCertificate(crypto: Crypto, certs: seq<string>, c: string, r: TlsaRecord)
    requires |certs| > 0 && ParamsValid(r) && r.usage in {0, 2}
    ensures Accepts(crypto, certs + [c], r) <==> Accepts(crypto, certs, r) || CertMatches(crypto, r, c)
  {
    var ext := certs + [c];
    if Accepts(crypto, certs, r) {
      var i :| 0 <= i < |certs| && CertMatches(crypto, r, certs[i]);
      assert ext[i] == certs[i];
    }
    if CertMatches(crypto, r, c) {
      assert ext[|certs|] == c;
    }
    if Accepts(crypto, ext, r) {
      var i :| 0 <= i < |ext| && CertMatches(crypto, r, ext[i]);
      if i < |certs| {
        assert ext[i] == certs[i];
      }
    }
  }

  /** With matching type 0 the comparison decides exact equality of the
      selected bytes (the whole DER, or the public key DER) and the
      record's association data. */
  lemma ExactMatchIsByteEquality(crypto: Crypto, r: TlsaRecord, pem: string)
    requires ParamsValid(r) && r.mtype == 0
    ensures CertMatches(crypto, r, pem) <==>
              (if r.selector == 0 then crypto.load(pem).der else crypto.load(pem).pubkeyDer) == r.cert
  {
    var data := TlsaSelect(r.selector, crypto.load(pem)).value;
    FmtHexdumpInjective(data, r.cert);
  }

  /** With matching type 1 or 2 the record matches when the digest of the
      selected bytes, read as hex in either case, is the association data. */
  lemma DigestMatch(crypto: Crypto, r: TlsaRecord, pem: string)
    requires ParamsValid(r) && r.mtype in {1, 2}
    ensures var data := TlsaSelect(r.selector, crypto.load(pem)).value;
            var digest := if r.mtype == 1 then crypto.sha256(data) else crypto.sha512(data);
            CertMatches(crypto, r, pem) <==> Unhex(FmtStr(digest)) == Some(r.cert)
  {
    var data := TlsaSelect(r.selector, crypto.load(pem)).value;
    FmtStrMatchesHex(if r.mtype == 1 then crypto.sha256(data) else crypto.sha512(data), r.cert);
  }
}
