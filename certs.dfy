/** Turning the certificate-fetch program's output into a chain:
    `split_certs` (tlsa_survey.py:112-120) and `get_cert`
    (tlsa_survey.py:137-156). The program itself is the function
    `script(host, port, serverName)` giving its standard output. */
module Certs {
  import opened Basics
  import opened Text
  import opened Names

  const EndMarker := "-----END CERTIFICATE-----"

  /** A piece of the output that `split_certs` skips. */
  predicate Blank(piece: string) {
    |piece| == 0 || piece == "\n"
  }

  /** The pieces kept by `split_certs`, each with its end marker put back:
      every certificate is a non-blank piece plus the marker, and every
      non-blank piece comes back that way. */
  function KeepCerts(pieces: seq<string>): (certs: seq<string>)
    ensures |certs| <= |pieces|
    ensures forall c :: c in certs ==>
              exists k :: 0 <= k < |pieces| && !Blank(pieces[k]) && c == pieces[k] + EndMarker
    ensures forall k :: 0 <= k < |pieces| && !Blank(pieces[k]) ==> pieces[k] + EndMarker in certs
  {
    if |pieces| == 0 then []
    else
      var last := pieces[|pieces| - 1];
      KeepCerts(pieces[..|pieces| - 1]) + (if Blank(last) then [] else [last + EndMarker])
  }

  /** `split_certs(multi_certs)`: cut the output after every end marker
      and drop the empty and newline-only pieces. */
  method SplitCerts(multiCerts: string) returns (certList: seq<string>)
    ensures certList == KeepCerts(Split(multiCerts, EndMarker))
  {
    certList := [];
    var certs := Split(multiCerts, EndMarker);
    for i := 0 to |certs|
      invariant certList == KeepCerts(certs[..i])
    {
      var cert := certs[i];
      assert certs[..i + 1][..i] == certs[..i];
      if |cert| == 0 || cert == "\n" {
        continue;
      }
      certList := certList + [cert + EndMarker];
    }
    assert certs[..|certs|] == certs;
  }

  /** Every certificate `split_certs` returns is a non-blank body free of
      end markers, followed by one end marker. */
  lemma {:induction false} KeptCertShape(pieces: seq<string>)
    requires forall k :: 0 <= k < |pieces| ==> !Contains(pieces[k], EndMarker)
    ensures forall c :: c in KeepCerts(pieces) ==>
              exists body :: c == body + EndMarker && !Blank(body) && !Contains(body, EndMarker)
  {
    if |pieces| > 0 {
      var init := pieces[..|pieces| - 1];
      var last := pieces[|pieces| - 1];
      assert forall k :: 0 <= k < |init| ==> init[k] == pieces[k];
      KeptCertShape(init);
      if !Blank(last) {
        assert last + EndMarker == last + EndMarker;
      }
    }
  }

  lemma SplitCertsShape(multiCerts: string)
    ensures forall c :: c in KeepCerts(Split(multiCerts, EndMarker)) ==>
              exists body :: c == body + EndMarker && !Blank(body) && !Contains(body, EndMarker)
  {
    SplitPiecesFree(multiCerts, EndMarker);
    KeptCertShape(Split(multiCerts, EndMarker));
  }

  /** The chain a fetch yields: the split output, or None when nothing
      is left of it. */
  function CertChain(output: string): (chain: Option<seq<string>>)
    ensures chain.Some? ==> |chain.value| > 0
    ensures chain.None? <==> KeepCerts(Split(output, EndMarker)) == []
  {
    var certs := KeepCerts(Split(output, EndMarker));
    if |certs| == 0 then None else Some(certs)
  }

  /** `get_cert(name, port, serv_name)`: run the fetch program on the
      names without their trailing dot (an empty server name means no
      SNI) and split its output. */
  method GetCert(script: (string, nat, string) -> string, name: string, port: nat, servName: string)
    returns (chain: Option<seq<string>>)
    ensures chain == CertChain(script(RmLastDot(name), port, RmLastDot(servName)))
    ensures chain.Some? ==> |chain.value| > 0
  {
    var host := RmLastDot(name);
    var sni := RmLastDot(servName);
    var output := script(host, port, sni);
    var certList := SplitCerts(output);
    if |certList| == 0 {
      return None;
    }
    return Some(certList);
  }
}
