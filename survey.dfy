/** One survey task: the endpoints probed for one input name (the body
    of `SurveyThread.run`, tlsa_survey.py:306-335), `tlsa_query`
    (tlsa_survey.py:280-285), what `validator` writes
    (tlsa_survey.py:205-274), and the filter that turns input lines into
    tasks (tlsa_survey.py:355-361). */
module Survey {
  import opened Basics
  import opened Text
  import opened Names
  import opened Matching
  import opened Certs
  import opened Validation
  import opened Outcomes

  /** One TLSA lookup: the endpoint `name:port`. */
  datatype Probe = Probe(name: string, port: nat)

  /** The `target` and `port` of an SRV record. */
  datatype SrvTarget = SrvTarget(target: string, port: nat)

  /** The answers of `send_query`, with None for every failure it
      collapses (NXDOMAIN, timeout, no answer, any other exception). An
      A answer is only tested for presence. */
  datatype Dns = Dns(
    hasA: string -> bool,
    mx: string -> Option<seq<string>>,
    srv: string -> Option<seq<SrvTarget>>,
    tlsa: string -> Option<seq<TlsaRecord>>)

  /** Everything outside the program that a task depends on: the DNS,
      the certificate-fetch program's output, and X.509 and SHA-2. */
  datatype Env = Env(dns: Dns, certScript: (string, nat, string) -> string, crypto: Crypto)

  const HttpsPort: nat := 443
  const MailPorts: seq<nat> := [25, 587, 465]
  const XmppPorts: seq<nat> := [5222, 5269]

  /** The SRV owner names of the XMPP client and server services. */
  function ClientSrvName(qn: string): string { "_xmpp-client._tcp." + qn }
  function ServerSrvName(qn: string): string { "_xmpp-server._tcp." + qn }

  /** `name` on each of `ports`, in order. */
  function PortsFor(name: string, ports: seq<nat>): (ps: seq<Probe>)
    ensures |ps| == |ports|
  {
    if |ports| == 0 then []
    else PortsFor(name, ports[..|ports| - 1]) + [Probe(name, ports[|ports| - 1])]
  }

  /** Each of `names` on each of `ports`: name by name, port by port. */
  function Cross(names: seq<string>, ports: seq<nat>): seq<Probe> {
    if |names| == 0 then []
    else Cross(names[..|names| - 1], ports) + PortsFor(names[|names| - 1], ports)
  }

  /** The endpoints named by an SRV answer, in answer order. */
  function SrvProbes(targets: seq<SrvTarget>): (ps: seq<Probe>)
    ensures |ps| == |targets|
  {
    if |targets| == 0 then []
    else SrvProbes(targets[..|targets| - 1]) + [Probe(targets[|targets| - 1].target, targets[|targets| - 1].port)]
  }

  function WebProbes(qn: string): seq<Probe> {
    [Probe(qn, HttpsPort), Probe("www." + qn, HttpsPort)]
  }

  /** Each MX exchange on the mail ports, or the name itself when there
      is no MX answer. */
  function MailProbes(qn: string, mx: Option<seq<string>>): seq<Probe> {
    if mx.Some? then Cross(mx.value, MailPorts) else PortsFor(qn, MailPorts)
  }

  function XmppSrvProbes(ans: Option<seq<SrvTarget>>): seq<Probe> {
    if ans.Some? then SrvProbes(ans.value) else []
  }

  /** The probes of the SRV loop over the owner names `srvNames`. */
  function SrvSection(dns: Dns, srvNames: seq<string>): seq<Probe> {
    if |srvNames| == 0 then []
    else SrvSection(dns, srvNames[..|srvNames| - 1]) + XmppSrvProbes(dns.srv(srvNames[|srvNames| - 1]))
  }

  /** The `jabber.` and `xmpp.` hosts on the XMPP ports. */
  function FallbackProbes(qn: string): seq<Probe> {
    Cross(["jabber." + qn, "xmpp." + qn], XmppPorts)
  }

  /** The probes of one task for the name `qn` (already without its
      trailing dot), given its MX answer and its two SRV answers. The
      `else:` at tlsa_survey.py:332 is indented as the `for` at
      tlsa_survey.py:327 once tabs are expanded, so it is the loop's
      `else` clause; the loop has no `break`, so the fallback probes are
      always issued, whatever the SRV answers. */
  function Probes(qn: string, mx: Option<seq<string>>, client: Option<seq<SrvTarget>>,
                  server: Option<seq<SrvTarget>>): seq<Probe> {
    WebProbes(qn) + MailProbes(qn, mx) + XmppSrvProbes(client) + XmppSrvProbes(server) + FallbackProbes(qn)
  }

  /** The probes of the task for the input line `raw`. */
  function TaskProbes(dns: Dns, raw: string): seq<Probe> {
    var qn := RmLastDot(raw);
    Probes(qn, dns.mx(qn), dns.srv(ClientSrvName(qn)), dns.srv(ServerSrvName(qn)))
  }

  lemma {:induction false} PortsForAt(name: string, ports: seq<nat>)
    ensures forall j :: 0 <= j < |ports| ==> PortsFor(name, ports)[j] == Probe(name, ports[j])
  {
    if |ports| > 0 {
      PortsForAt(name, ports[..|ports| - 1]);
    }
  }

  lemma MulSucc(a: nat, c: nat)
    ensures (a + 1) * c == a * c + c
  {
  }

  /** `Cross` has one probe per pair of a name and a port. */
  lemma {:induction false} CrossLength(names: seq<string>, ports: seq<nat>)
    ensures |Cross(names, ports)| == |names| * |ports|
  {
    if |names| > 0 {
      CrossLength(names[..|names| - 1], ports);
      MulSucc(|names| - 1, |ports|);
    }
  }

  /** `Cross` lists every pair, name-major: the probe at
      `i * |ports| + j` is name `i` on port `j`. */
  lemma {:induction false} CrossIndex(names: seq<string>, ports: seq<nat>, i: nat, j: nat)
    requires i < |names| && j < |ports|
    ensures i * |ports| + j < |Cross(names, ports)|
    ensures Cross(names, ports)[i * |ports| + j] == Probe(names[i], ports[j])
  {
    var init, last := names[..|names| - 1], names[|names| - 1];
    var n := |init| * |ports|;
    CrossLength(init, ports);
    PortsForAt(last, ports);
    if i < |init| {
      CrossIndex(init, ports, i, j);
    } else {
      assert i * |ports| == n;
    }
  }

  /** A probe is in `Cross(names, ports)` exactly when its name is one
      of the names and its port one of the ports. */
  lemma {:induction false} CrossMembers(names: seq<string>, ports: seq<nat>, p: Probe)
    ensures p in Cross(names, ports) <==> p.name in names && p.port in ports
  {
    if |names| > 0 {
      var init, last := names[..|names| - 1], names[|names| - 1];
      CrossMembers(init, ports, p);
      PortsForAt(last, ports);
      assert names == init + [last];
      if p in PortsFor(last, ports) {
        var j :| 0 <= j < |ports| && PortsFor(last, ports)[j] == p;
        assert p.port == ports[j];
      }
      if p.name == last && p.port in ports {
        var j :| 0 <= j < |ports| && ports[j] == p.port;
        assert PortsFor(last, ports)[j] == p;
      }
    }
  }

  /** The order of a task's probes: the two web probes first, then the
      mail section (three probes per MX exchange, or three for the name
      itself), then the SRV targets, and always the four fallback probes
      last. */
  lemma ProbesShape(qn: string, mx: Option<seq<string>>, client: Option<seq<SrvTarget>>,
                    server: Option<seq<SrvTarget>>)
    ensures var ps := Probes(qn, mx, client, server);
            var m := |MailProbes(qn, mx)|;
            var s := |XmppSrvProbes(client)| + |XmppSrvProbes(server)|;
            && m == (if mx.Some? then 3 * |mx.value| else 3)
            && |ps| == 2 + m + s + 4
            && ps[0] == Probe(qn, 443) && ps[1] == Probe("www." + qn, 443)
            && ps[|ps| - 4..] == [Probe("jabber." + qn, 5222), Probe("jabber." + qn, 5269),
                                  Probe("xmpp." + qn, 5222), Probe("xmpp." + qn, 5269)]
  {
    if mx.Some? {
      CrossLength(mx.value, MailPorts);
    }
    FallbackExplicit(qn);
  }

  /** The mail ports of every MX exchange are probed; with no MX answer
      the mail ports of the name itself are. */
  lemma MailCoverage(qn: string, mx: Option<seq<string>>, client: Option<seq<SrvTarget>>,
                     server: Option<seq<SrvTarget>>, host: string, port: nat)
    requires port in MailPorts
    requires if mx.Some? then host in mx.value else host == qn
    ensures Probe(host, port) in Probes(qn, mx, client, server)
  {
    var ps := Probes(qn, mx, client, server);
    if mx.Some? {
      CrossMembers(mx.value, MailPorts, Probe(host, port));
    } else {
      PortsForAt(qn, MailPorts);
    }
    var mail := MailProbes(qn, mx);
    var i :| 0 <= i < |mail| && mail[i] == Probe(host, port);
    assert ps[2 + i] == mail[i];
  }

  /** Every SRV target of either answer is probed on its own port. */
  lemma SrvCoverage(qn: string, mx: Option<seq<string>>, client: Option<seq<SrvTarget>>,
                    server: Option<seq<SrvTarget>>, t: SrvTarget)
    requires (client.Some? && t in client.value) || (server.Some? && t in server.value)
    ensures Probe(t.target, t.port) in Probes(qn, mx, client, server)
  {
    var ans := if client.Some? && t in client.value then client.value else server.value;
    SrvProbesMembers(ans, t);
  }

  lemma {:induction false} SrvProbesMembers(targets: seq<SrvTarget>, t: SrvTarget)
    requires t in targets
    ensures Probe(t.target, t.port) in SrvProbes(targets)
  {
    var init, last := targets[..|targets| - 1], targets[|targets| - 1];
    assert targets == init + [last];
    if t != last {
      SrvProbesMembers(init, t);
    }
  }

  /** Two MX exchanges give six mail probes, exchange by exchange. */
  lemma TwoExchangesScenario(qn: string, a: string, b: string)
    ensures MailProbes(qn, Some([a, b])) ==
              [Probe(a, 25), Probe(a, 587), Probe(a, 465), Probe(b, 25), Probe(b, 587), Probe(b, 465)]
  {
    CrossTwo(a, b, MailPorts);
    PortsForMail(a);
    PortsForMail(b);
  }

  lemma PortsForMail(name: string)
    ensures PortsFor(name, MailPorts) == [Probe(name, 25), Probe(name, 587), Probe(name, 465)]
  {
    var ps := MailPorts;
    assert ps[..2] == [25, 587] && ps[..2][..1] == [25] && [25][..0] == [];
    assert PortsFor(name, [25]) == [Probe(name, 25)];
    assert PortsFor(name, [25, 587]) == [Probe(name, 25), Probe(name, 587)];
  }

  lemma PortsForXmpp(name: string)
    ensures PortsFor(name, XmppPorts) == [Probe(name, 5222), Probe(name, 5269)]
  {
    var ps := XmppPorts;
    assert ps[..1] == [5222] && [5222][..0] == [];
    assert PortsFor(name, [5222]) == [Probe(name, 5222)];
  }

  lemma CrossTwo(a: string, b: string, ports: seq<nat>)
    ensures Cross([a, b], ports) == PortsFor(a, ports) + PortsFor(b, ports)
  {
    var names := [a, b];
    assert names[..1] == [a] && [a][..0] == [];
    assert Cross([a], ports) == PortsFor(a, ports);
  }

  lemma FallbackExplicit(qn: string)
    ensures FallbackProbes(qn) == [Probe("jabber." + qn, 5222), Probe("jabber." + qn, 5269),
                                   Probe("xmpp." + qn, 5222), Probe("xmpp." + qn, 5269)]
  {
    CrossTwo("jabber." + qn, "xmpp." + qn, XmppPorts);
    PortsForXmpp("jabber." + qn);
    PortsForXmpp("xmpp." + qn);
  }

  /** The label of the endpoint `qn:port` whose TLSA answer holds
      `records`: the certificate fetches are without SNI (an empty server
      name) and with `qn` as server name. */
  function EndpointOutcome(env: Env, qn: string, port: nat, records: seq<TlsaRecord>): Label {
    var norm := CertChain(env.certScript(RmLastDot(qn), port, RmLastDot("")));
    var sni := CertChain(env.certScript(RmLastDot(qn), port, RmLastDot(qn)));
    EndpointLabel(env.crypto, env.dns.hasA(qn), norm, sni, Some(records))
  }

  /** The rows one probe writes: none without a TLSA answer, otherwise
      one per record, labelled with the endpoint's outcome. */
  function ProbeRows(env: Env, round: Round, p: Probe): set<OutcomeRow> {
    var qn := RmLastDot(p.name);
    var ans := env.dns.tlsa(FmtTlsaName(qn, p.port));
    if ans.None? then {}
    else RowsFor(round, RmLastDot(qn), p.port, EndpointOutcome(env, qn, p.port, ans.value), ans.value)
  }

  /** The rows a sequence of probes writes. */
  function RowsOf(env: Env, round: Round, ps: seq<Probe>): set<OutcomeRow> {
    if |ps| == 0 then {}
    else RowsOf(env, round, ps[..|ps| - 1]) + ProbeRows(env, round, ps[|ps| - 1])
  }

  /** A probe without a TLSA answer writes nothing; one with an answer
      writes one row per distinct record, all with the endpoint's label. */
  lemma ProbeRowsCount(env: Env, round: Round, p: Probe)
    ensures var qn := RmLastDot(p.name);
            var ans := env.dns.tlsa(FmtTlsaName(qn, p.port));
            |ProbeRows(env, round, p)| == if ans.None? then 0 else |Distinct(ans.value)|
  {
    var qn := RmLastDot(p.name);
    var ans := env.dns.tlsa(FmtTlsaName(qn, p.port));
    if ans.Some? {
      RowsForSize(round, RmLastDot(qn), p.port, EndpointOutcome(env, qn, p.port, ans.value), ans.value);
    }
  }

  /** An endpoint without an A answer is recorded as NO-IP whatever the
      certificate program would print. */
  lemma NoAddressScenario(env: Env, qn: string, port: nat, records: seq<TlsaRecord>)
    requires !env.dns.hasA(qn)
    ensures EndpointOutcome(env, qn, port, records) == NoIp
  {
  }

  /** `validator(qn, port, resolver, tlsa_ans, myid)` for a TLSA answer
      holding `records`: look up the address, fetch the chain without and
      with SNI, classify, and write the rows. */
  method Validator(db: OutcomeTable, round: Round, env: Env, qn: string, port: nat, records: seq<TlsaRecord>)
    returns (outcome: Label)
    modifies db
    ensures outcome == EndpointOutcome(env, qn, port, records)
    ensures db.rows == old(db.rows) + RowsFor(round, RmLastDot(qn), port, outcome, records)
  {
    if !env.dns.hasA(qn) {
      outcome := NoIp;
      db.WriteDb(round, qn, port, records, outcome);
      return;
    }
    var norm := GetCert(env.certScript, qn, port, "");
    var sni := GetCert(env.certScript, qn, port, qn);
    outcome := Judge(env.crypto, norm, sni, Some(records));
    db.WriteDb(round, qn, port, records, outcome);
  }

  /** `tlsa_query(qn, port, resolver, myid)`: look up the TLSA records of
      the endpoint and validate it when there is an answer. */
  method TlsaQuery(db: OutcomeTable, round: Round, env: Env, qn: string, port: nat)
    modifies db
    ensures db.rows == old(db.rows) + ProbeRows(env, round, Probe(qn, port))
  {
    var name := RmLastDot(qn);
    var tlsaName := FmtTlsaName(name, port);
    var answers := env.dns.tlsa(tlsaName);
    if answers.Some? {
      var _ := Validator(db, round, env, name, port, answers.value);
    }
  }

  /** `tlsa_query` as issued by the task, with the probe appended to the
      trace of probes issued so far. */
  method Issue(db: OutcomeTable, round: Round, env: Env, ghost base: set<OutcomeRow>,
               issued: seq<Probe>, name: string, port: nat)
    returns (issued': seq<Probe>)
    modifies db
    requires db.rows == base + RowsOf(env, round, issued)
    ensures issued' == issued + [Probe(name, port)]
    ensures db.rows == base + RowsOf(env, round, issued')
  {
    TlsaQuery(db, round, env, name, port);
    issued' := issued + [Probe(name, port)];
    assert issued'[..|issued'| - 1] == issued;
  }

  lemma PortsStep(issued: seq<Probe>, prev: seq<Probe>, name: string, ports: seq<nat>, j: nat)
    requires j < |ports| && prev == issued + PortsFor(name, ports[..j])
    ensures prev + [Probe(name, ports[j])] == issued + PortsFor(name, ports[..j + 1])
  {
    assert ports[..j + 1][..j] == ports[..j];
  }

  /** `for port in ports: tlsa_query(name, port, ...)`. */
  method IssuePorts(db: OutcomeTable, round: Round, env: Env, ghost base: set<OutcomeRow>,
                    issued: seq<Probe>, name: string, ports: seq<nat>)
    returns (issued': seq<Probe>)
    modifies db
    requires db.rows == base + RowsOf(env, round, issued)
    ensures issued' == issued + PortsFor(name, ports)
    ensures db.rows == base + RowsOf(env, round, issued')
  {
    issued' := issued;
    for j := 0 to |ports|
      invariant db.rows == base + RowsOf(env, round, issued')
      invariant issued' == issued + PortsFor(name, ports[..j])
    {
      PortsStep(issued, issued', name, ports, j);
      issued' := Issue(db, round, env, base, issued', name, ports[j]);
    }
    assert ports[..|ports|] == ports;
  }

  /** `for n in names: for port in ports: tlsa_query(n, port, ...)`. */
  method IssueCross(db: OutcomeTable, round: Round, env: Env, ghost base: set<OutcomeRow>,
                    issued: seq<Probe>, names: seq<string>, ports: seq<nat>)
    returns (issued': seq<Probe>)
    modifies db
    requires db.rows == base + RowsOf(env, round, issued)
    ensures issued' == issued + Cross(names, ports)
    ensures db.rows == base + RowsOf(env, round, issued')
  {
    issued' := issued;
    for i := 0 to |names|
      invariant db.rows == base + RowsOf(env, round, issued')
      invariant issued' == issued + Cross(names[..i], ports)
    {
      CrossStep(issued, issued', names, ports, i);
      issued' := IssuePorts(db, round, env, base, issued', names[i], ports);
    }
    assert names[..|names|] == names;
  }

  lemma SrvProbesStep(issued: seq<Probe>, prev: seq<Probe>, targets: seq<SrvTarget>, i: nat)
    requires i < |targets| && prev == issued + SrvProbes(targets[..i])
    ensures prev + [Probe(targets[i].target, targets[i].port)] == issued + SrvProbes(targets[..i + 1])
  {
    assert targets[..i + 1][..i] == targets[..i];
  }

  lemma CrossStep(issued: seq<Probe>, prev: seq<Probe>, names: seq<string>, ports: seq<nat>, i: nat)
    requires i < |names| && prev == issued + Cross(names[..i], ports)
    ensures prev + PortsFor(names[i], ports) == issued + Cross(names[..i + 1], ports)
  {
    assert names[..i + 1][..i] == names[..i];
  }

  /** `for rdata in srv_ans: tlsa_query(str(rdata.target), rdata.port, ...)`. */
  method IssueSrv(db: OutcomeTable, round: Round, env: Env, ghost base: set<OutcomeRow>,
                  issued: seq<Probe>, targets: seq<SrvTarget>)
    returns (issued': seq<Probe>)
    modifies db
    requires db.rows == base + RowsOf(env, round, issued)
    ensures issued' == issued + SrvProbes(targets)
    ensures db.rows == base + RowsOf(env, round, issued')
  {
    issued' := issued;
    for i := 0 to |targets|
      invariant db.rows == base + RowsOf(env, round, issued')
      invariant issued' == issued + SrvProbes(targets[..i])
    {
      SrvProbesStep(issued, issued', targets, i);
      issued' := Issue(db, round, env, base, issued', targets[i].target, targets[i].port);
    }
    assert targets[..|targets|] == targets;
  }

  lemma SrvSectionStep(dns: Dns, mail: seq<Probe>, prev: seq<Probe>, srvNames: seq<string>, k: nat)
    requires k < |srvNames| && prev == mail + SrvSection(dns, srvNames[..k])
    ensures prev + XmppSrvProbes(dns.srv(srvNames[k])) == mail + SrvSection(dns, srvNames[..k + 1])
  {
    assert srvNames[..k + 1][..k] == srvNames[..k];
  }

  lemma SrvSectionTwo(dns: Dns, c: string, s: string)
    ensures SrvSection(dns, [c, s]) == XmppSrvProbes(dns.srv(c)) + XmppSrvProbes(dns.srv(s))
  {
    var names := [c, s];
    assert names[..1] == [c];
    assert SrvSection(dns, names[..1]) == SrvSection(dns, []) + XmppSrvProbes(dns.srv(c));
    assert SrvSection(dns, names) == SrvSection(dns, names[..1]) + XmppSrvProbes(dns.srv(s));
  }

  /** The mail section: every MX exchange on the mail ports, or the name
      itself without an MX answer. */
  method IssueMail(db: OutcomeTable, round: Round, env: Env, ghost base: set<OutcomeRow>,
                   issued: seq<Probe>, qn: string)
    returns (issued': seq<Probe>)
    modifies db
    requires db.rows == base + RowsOf(env, round, issued)
    ensures issued' == issued + MailProbes(qn, env.dns.mx(qn))
    ensures db.rows == base + RowsOf(env, round, issued')
  {
    var mxAns := env.dns.mx(qn);
    if mxAns.Some? {
      issued' := IssueCross(db, round, env, base, issued, mxAns.value, MailPorts);
    } else {
      issued' := IssuePorts(db, round, env, base, issued, qn, MailPorts);
    }
  }

  /** The SRV loop over the client and server owner names. */
  method IssueXmppSrv(db: OutcomeTable, round: Round, env: Env, ghost base: set<OutcomeRow>,
                      issued: seq<Probe>, qn: string)
    returns (issued': seq<Probe>)
    modifies db
    requires db.rows == base + RowsOf(env, round, issued)
    ensures issued' == issued + SrvSection(env.dns, [ClientSrvName(qn), ServerSrvName(qn)])
    ensures db.rows == base + RowsOf(env, round, issued')
  {
    issued' := issued;
    var srvNames := [ClientSrvName(qn), ServerSrvName(qn)];
    for k := 0 to |srvNames|
      invariant db.rows == base + RowsOf(env, round, issued')
      invariant issued' == issued + SrvSection(env.dns, srvNames[..k])
    {
      var srvAns := env.dns.srv(srvNames[k]);
      SrvSectionStep(env.dns, issued, issued', srvNames, k);
      if srvAns.Some? {
        issued' := IssueSrv(db, round, env, base, issued', srvAns.value);
      }
    }
    assert srvNames[..|srvNames|] == srvNames;
  }

  /** One task of `SurveyThread.run` for the queued line `raw`: the web
      probes, the mail probes, the SRV loop and its `else` clause, in the
      source's order. `issued` is the trace of the probes. */
  method SurveyTask(db: OutcomeTable, round: Round, env: Env, raw: string)
    returns (issued: seq<Probe>)
    modifies db
    ensures issued == TaskProbes(env.dns, raw)
    ensures db.rows == old(db.rows) + RowsOf(env, round, issued)
  {
    ghost var base := db.rows;
    var qn := RmLastDot(raw);
    issued := [];
    issued := Issue(db, round, env, base, issued, qn, HttpsPort);
    issued := Issue(db, round, env, base, issued, "www." + qn, HttpsPort);
    assert issued == WebProbes(qn);
    issued := IssueMail(db, round, env, base, issued, qn);
    var mail := issued;
    issued := IssueXmppSrv(db, round, env, base, issued, qn);
    var srv := issued;
    // the `else` clause of the SRV loop: there is no `break`, so it always runs
    issued := IssueCross(db, round, env, base, issued, ["jabber." + qn, "xmpp." + qn], XmppPorts);
    TaskProbesParts(env.dns, raw, mail, srv, issued);
  }

  lemma TaskProbesParts(dns: Dns, raw: string, mail: seq<Probe>, srv: seq<Probe>, issued: seq<Probe>)
    requires var qn := RmLastDot(raw);
             && mail == WebProbes(qn) + MailProbes(qn, dns.mx(qn))
             && srv == mail + SrvSection(dns, [ClientSrvName(qn), ServerSrvName(qn)])
             && issued == srv + FallbackProbes(qn)
    ensures issued == TaskProbes(dns, raw)
  {
    var qn := RmLastDot(raw);
    SrvSectionTwo(dns, ClientSrvName(qn), ServerSrvName(qn));
  }

  /** A line the input loop skips: empty, a comment, or a bare newline.
      The test is made before stripping. */
  predicate Skipped(line: string) {
    |line| == 0 || line[0] == '#' || line == "\n"
  }

  /** The tasks queued for the input lines: every line not skipped,
      stripped. */
  function TaskLines(lines: seq<string>): (tasks: seq<string>)
    ensures |tasks| <= |lines|
  {
    if |lines| == 0 then []
    else
      var last := lines[|lines| - 1];
      TaskLines(lines[..|lines| - 1]) + (if Skipped(last) then [] else [Strip(last)])
  }

  /** The input loop of `tlsa_survey`: filter and strip each line, and
      put it on the task queue. */
  method QueueTasks(lines: seq<string>) returns (queue: seq<string>)
    ensures queue == TaskLines(lines)
  {
    queue := [];
    for i := 0 to |lines|
      invariant queue == TaskLines(lines[..i])
    {
      var l := lines[i];
      assert lines[..i + 1][..i] == lines[..i];
      if |l| == 0 || l[0] == '#' || l == "\n" {
        continue;
      }
      l := Strip(l);
      queue := queue + [l];
    }
    assert lines[..|lines|] == lines;
  }

  /** `t` is one of `lines` stripped: no whitespace at either end, and
      surrounded in that line by whitespace only. */
  ghost predicate StrippedLine(t: string, lines: seq<string>) {
    && (t == [] || (!IsSpace(t[0]) && !IsSpace(t[|t| - 1])))
    && exists k, i :: 0 <= k < |lines| && StrippedAt(t, lines[k], i)
  }

  lemma StrippedLineExtend(t: string, init: seq<string>, last: string)
    requires StrippedLine(t, init)
    ensures StrippedLine(t, init + [last])
  {
    var k, i :| 0 <= k < |init| && StrippedAt(t, init[k], i);
    assert (init + [last])[k] == init[k];
  }

  lemma StrippedLineLast(init: seq<string>, last: string)
    ensures StrippedLine(Strip(last), init + [last])
  {
    var i :| StrippedAt(Strip(last), last, i);
    assert (init + [last])[|init|] == last;
  }

  /** Every queued task is a stripped input line. */
  lemma {:induction false} TasksStripped(lines: seq<string>)
    ensures forall t :: t in TaskLines(lines) ==> StrippedLine(t, lines)
  {
    if |lines| > 0 {
      var init, last := lines[..|lines| - 1], lines[|lines| - 1];
      TasksStripped(init);
      assert lines == init + [last];
      forall t | t in TaskLines(lines)
        ensures StrippedLine(t, lines)
      {
        if t in TaskLines(init) {
          StrippedLineExtend(t, init, last);
        } else {
          StrippedLineLast(init, last);
        }
      }
    }
  }

  /** `TaskLines` treats the lines one at a time. */
  lemma {:induction false} TaskLinesAppend(a: seq<string>, b: seq<string>)
    ensures TaskLines(a + b) == TaskLines(a) + TaskLines(b)
  {
    if |b| > 0 {
      var init := b[..|b| - 1];
      TaskLinesAppend(a, init);
      assert (a + b)[..|a + b| - 1] == a + init;
    } else {
      assert a + b == a;
    }
  }

  /** The filter tests the line before stripping it, so a line that
      starts with a space and holds nothing but whitespace is queued as
      an empty task. */
  lemma WhitespaceLineQueued(line: string)
    requires |line| > 0 && line[0] == ' '
    requires forall k :: 0 <= k < |line| ==> IsSpace(line[k])
    ensures TaskLines([line]) == [""]
  {
    assert [line][..0] == [];
    var r := Strip(line);
    var i :| StrippedAt(r, line, i);
  }

  /** An indented comment is queued too, comment marker first; a comment
      in the first column is not. */
  lemma IndentedCommentQueued(line: string)
    requires |line| > 1 && line[0] == ' ' && line[1] == '#'
    ensures TaskLines([line]) == [Strip(line)] && Strip(line) != [] && Strip(line)[0] == '#'
    ensures TaskLines([line[1..]]) == []
  {
    assert [line][..0] == [];
    assert [line[1..]][..0] == [];
    StripDropsLeadingSpace(line);
    StripKeepsFirst(line[1..]);
  }
}
