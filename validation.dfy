/** The outcome label of one probed endpoint: the decision part of
    `validator` (tlsa_survey.py:205-274). */
module Validation {
  import opened Basics
  import opened Matching
  import opened HexFormat

  /** The `valid_info` values. */
  datatype Label = Empty | NoIp | NoCert | NoTlsa | Ok | BadPara | BadHash
  {
    /** The text stored in the `valid_info` column. */
    function Text(): string {
      match this
      case Empty => "EMPTY"
      case NoIp => "NO-IP"
      case NoCert => "NO-CERT"
      case NoTlsa => "NO-TLSA"
      case Ok => "OK"
      case BadPara => "BAD-PARA"
      case BadHash => "BAD-HASH"
    }
  }

  /** A fetched chain is never empty: `get_cert` answers None instead. */
  predicate ChainOk(chain: Option<seq<string>>) {
    chain.Some? ==> |chain.value| > 0
  }

  /** A record matches in the SNI or in the non-SNI retrieval context. */
  predicate RecordMatches(crypto: Crypto, norm: Option<seq<string>>, sni: Option<seq<string>>, r: TlsaRecord)
    requires ChainOk(norm) && ChainOk(sni)
  {
    (sni.Some? && Accepts(crypto, sni.value, r)) || (norm.Some? && Accepts(crypto, norm.value, r))
  }

  /** The label an endpoint gets, in priority order: no address, no
      certificate in either context, no TLSA answer, no record at all;
      then OK when any record matches; otherwise the first record decides
      between BAD-PARA and BAD-HASH. */
  function EndpointLabel(crypto: Crypto, hasA: bool, norm: Option<seq<string>>,
                         sni: Option<seq<string>>, tlsa: Option<seq<TlsaRecord>>): Label
    requires ChainOk(norm) && ChainOk(sni)
  {
    if !hasA then NoIp
    else if norm.None? && sni.None? then NoCert
    else if tlsa.None? then NoTlsa
    else if |tlsa.value| == 0 then Empty
    else if exists i :: 0 <= i < |tlsa.value| && RecordMatches(crypto, norm, sni, tlsa.value[i]) then Ok
    else if !ParamsValid(tlsa.value[0]) then BadPara
    else BadHash
  }

  /** Whether "BAD-PARA" is in `err_msg` after the first `n` records. */
  predicate SomeBadParams(records: seq<TlsaRecord>, n: nat)
    requires n <= |records|
  {
    exists j :: 0 <= j < n && !ParamsValid(records[j])
  }

  /** Whether one of the first `n` records matched. */
  predicate SomeMatch(crypto: Crypto, norm: Option<seq<string>>, sni: Option<seq<string>>,
                      records: seq<TlsaRecord>, n: nat)
    requires ChainOk(norm) && ChainOk(sni) && n <= |records|
  {
    exists j :: 0 <= j < n && RecordMatches(crypto, norm, sni, records[j])
  }

  /** One record of `validator`'s loop (tlsa_survey.py:245-251): the
      record is checked against the SNI chain, then the non-SNI chain,
      each when it was fetched. */
  method CheckRecord(crypto: Crypto, norm: Option<seq<string>>, sni: Option<seq<string>>,
                     r: TlsaRecord, errMsg: ErrMsg)
    returns (sniCertOk: bool, normCertOk: bool, errOut: ErrMsg)
    requires ChainOk(norm) && ChainOk(sni) && (norm.Some? || sni.Some?)
    ensures sniCertOk <==> sni.Some? && Accepts(crypto, sni.value, r)
    ensures normCertOk <==> norm.Some? && Accepts(crypto, norm.value, r)
    ensures BadParaKey in errOut <==> BadParaKey in errMsg || !ParamsValid(r)
  {
    sniCertOk, normCertOk, errOut := false, false, errMsg;
    if sni.Some? {
      sniCertOk, errOut := IsValid(crypto, sni.value, r, errOut, SniKey);
    }
    if norm.Some? {
      normCertOk, errOut := IsValid(crypto, norm.value, r, errOut, NormKey);
    }
  }

  /** `validator` from the certificate check on (tlsa_survey.py:219-272),
      once the address lookup has succeeded and both fetches are done:
      the loop over the records keeps `valid_info` at EMPTY until the
      first record, which sets OK, BAD-PARA or BAD-HASH; afterwards only
      a match changes it, to OK. */
  method Judge(crypto: Crypto, norm: Option<seq<string>>, sni: Option<seq<string>>,
               tlsa: Option<seq<TlsaRecord>>)
    returns (outcome: Label)
    requires ChainOk(norm) && ChainOk(sni)
    ensures outcome == EndpointLabel(crypto, true, norm, sni, tlsa)
  {
    outcome := Empty;
    if sni.None? && norm.None? {
      return NoCert;
    }
    if tlsa.None? {
      return NoTlsa;
    }
    var records := tlsa.value;
    var errMsg: ErrMsg := map[];
    var sniCertOk, normCertOk;
    for i := 0 to |records|
      invariant BadParaKey in errMsg <==> SomeBadParams(records, i)
      invariant outcome in {Empty, Ok, BadPara, BadHash}
      invariant i == 0 ==> outcome == Empty
      invariant i > 0 ==> outcome != Empty
      invariant outcome == Ok <==> SomeMatch(crypto, norm, sni, records, i)
      invariant i > 0 && outcome != Ok ==> (outcome == BadPara <==> !ParamsValid(records[0]))
    {
      var r := records[i];
      sniCertOk, normCertOk, errMsg := CheckRecord(crypto, norm, sni, r, errMsg);
      assert BadParaKey in errMsg <==> SomeBadParams(records, i + 1) by {
        if !ParamsValid(r) {
          assert SomeBadParams(records, i + 1);
        }
      }
      assert SomeMatch(crypto, norm, sni, records, i + 1) <==>
             SomeMatch(crypto, norm, sni, records, i) || sniCertOk || normCertOk by {
        if sniCertOk || normCertOk {
          assert RecordMatches(crypto, norm, sni, records[i]);
        }
      }
      if sniCertOk {
        outcome := Ok;
      }
      if normCertOk {
        outcome := Ok;
      }
      if !sniCertOk && !normCertOk {
        if outcome == Empty {
          if BadParaKey in errMsg {
            outcome := BadPara;
          } else {
            outcome := BadHash;
          }
        }
      }
    }
  }

  /** Without an address record the label is NO-IP whatever the
      certificate fetches would have returned: they are never looked at. */
  lemma NoAddressIgnoresCertificates(crypto: Crypto, norm1: Option<seq<string>>, sni1: Option<seq<string>>,
                                     norm2: Option<seq<string>>, sni2: Option<seq<string>>,
                                     tlsa: Option<seq<TlsaRecord>>)
    requires ChainOk(norm1) && ChainOk(sni1) && ChainOk(norm2) && ChainOk(sni2)
    ensures EndpointLabel(crypto, false, norm1, sni1, tlsa) == EndpointLabel(crypto, false, norm2, sni2, tlsa) == NoIp
  {
  }

  /** OK is reached exactly when some record has in-range parameters and
      matches in one of the two contexts. */
  lemma OkIffSomeValidRecordMatches(crypto: Crypto, norm: Option<seq<string>>, sni: Option<seq<string>>,
                                    records: seq<TlsaRecord>)
    requires ChainOk(norm) && ChainOk(sni) && (norm.Some? || sni.Some?)
    ensures EndpointLabel(crypto, true, norm, sni, Some(records)) == Ok <==>
              exists i :: 0 <= i < |records| && ParamsValid(records[i]) && RecordMatches(crypto, norm, sni, records[i])
  {
  }

  /** Records with out-of-range parameters never make an endpoint OK:
      when every record is malformed the label is BAD-PARA. */
  lemma AllBadParamsGiveBadPara(crypto: Crypto, norm: Option<seq<string>>, sni: Option<seq<string>>,
                                records: seq<TlsaRecord>)
    requires ChainOk(norm) && ChainOk(sni) && (norm.Some? || sni.Some?)
    requires |records| > 0 && forall i :: 0 <= i < |records| ==> !ParamsValid(records[i])
    ensures EndpointLabel(crypto, true, norm, sni, Some(records)) == BadPara
  {
  }

  /** Only the first record decides between BAD-PARA and BAD-HASH: a valid
      first record followed by malformed ones that all fail still gives
      BAD-HASH, and a malformed first one gives BAD-PARA. */
  lemma FirstRecordDecidesFailure(crypto: Crypto, norm: Option<seq<string>>, sni: Option<seq<string>>,
                                  records: seq<TlsaRecord>)
    requires ChainOk(norm) && ChainOk(sni) && (norm.Some? || sni.Some?)
    requires |records| > 0
    requires EndpointLabel(crypto, true, norm, sni, Some(records)) != Ok
    ensures EndpointLabel(crypto, true, norm, sni, Some(records)) == if ParamsValid(records[0]) then BadHash else BadPara
  {
  }

  /** EMPTY is the label of an empty record set, and of nothing else. */
  lemma EmptyOnlyForNoRecords(crypto: Crypto, hasA: bool, norm: Option<seq<string>>,
                              sni: Option<seq<string>>, tlsa: Option<seq<TlsaRecord>>)
    requires ChainOk(norm) && ChainOk(sni)
    ensures EndpointLabel(crypto, hasA, norm, sni, tlsa) == Empty <==>
              hasA && (norm.Some? || sni.Some?) && tlsa == Some([])
  {
  }

  /** A match in either context suffices: adding the SNI chain never
      turns an OK endpoint into a failure. */
  lemma SniContextOnlyAdds(crypto: Crypto, norm: Option<seq<string>>, sniChain: seq<string>,
                           records: seq<TlsaRecord>)
    requires ChainOk(norm) && |sniChain| > 0 && norm.Some?
    requires EndpointLabel(crypto, true, norm, None, Some(records)) == Ok
    ensures EndpointLabel(crypto, true, norm, Some(sniChain), Some(records)) == Ok
  {
    var i :| 0 <= i < |records| && RecordMatches(crypto, norm, None, records[i]);
    assert RecordMatches(crypto, norm, Some(sniChain), records[i]);
  }

  /** The usage-1 SHA-256 case: a record whose association data is the
      SHA-256 of the leaf's DER (as hex, in either case) makes the
      endpoint OK; the same record with any other digest does not, when
      it is the only record. */
  lemma LeafDigestScenario(crypto: Crypto, chain: seq<string>, data: seq<byte>)
    requires |chain| > 0
    ensures var r := TlsaRecord(1, 0, 1, data);
            var outcome := EndpointLabel(crypto, true, Some(chain), None, Some([r]));
            outcome == if FmtStr(crypto.sha256(crypto.load(chain[0]).der)) == FmtStr(Hexdump(data)) then Ok else BadHash
  {
    var r := TlsaRecord(1, 0, 1, data);
    if FmtStr(crypto.sha256(crypto.load(chain[0]).der)) == FmtStr(Hexdump(data)) {
      assert RecordMatches(crypto, Some(chain), None, [r][0]);
    }
  }
}
