# tlsa-survey in Dafny

This project models the decision logic of tlsa-survey, a tool that measures DANE deployment. For each domain name it reads, the survey does four things:
- it derives the TLS endpoints to probe: web, mail through MX, XMPP through SRV, and the `jabber.`/`xmpp.` fallbacks;
- it asks for each endpoint's TLSA record (RFC 6698);
- it fetches the endpoint's certificate chain, with and without SNI;
- it records one outcome row per TLSA record.

The outcome row carries a label: NO-IP, NO-CERT, NO-TLSA, OK, BAD-PARA, BAD-HASH or EMPTY.

A companion script, `dnssec_tlsa_zone_num.py`, reads those rows back day by day. For each day it counts the distinct second-level zones per top-level zone and writes one `zone_num` row per top-level zone.

## Modules

- `Basics`: bytes, `Option`, and `Fatal`, which is the result of a step that can call `sys.exit`; that ends the calling thread (a survey worker for the matching steps), or the program when called from the main thread.
- `Text`: Python's `str.split`, `str.join`, `str.strip` and `str(n)` on strings. It also proves the split/join round trip.
- `HexFormat`: `hexdump` and `fmt_str`, plus a hex decoder that shows `hexdump` loses nothing.
- `Names`:
  - `rm_last_dot`, `get_tld` and `get_zone` (as lemmas about their shape);
  - `fmt_tlsa_name`.
- `Matching`: the RFC 6698 certificate usage (section 2.1.1), selector (section 2.1.2) and matching type (section 2.1.3) handled by `tlsa_select`, `tlsa_match` and `is_valid`.
  - Certificates are opaque values.
  - X.509 loading and the SHA-256/SHA-512 digests are function-valued inputs (`Crypto`).
  - `err_msg` is passed in and returned.
- `Certs`: `split_certs`, and `get_cert` over the certificate program's output. The program itself is an input function.
- `Validation`: the endpoint label as a specification function (`EndpointLabel`), and the record loop of `validator` proved against it.
- `Outcomes`: the `tlsa_rdata` table as a class holding a set of rows. The unique index over all twelve columns makes a repeated insert a no-op.
- `Survey`:
  - `validator` and `tlsa_query`;
  - one task of `SurveyThread.run` as nested loops, proved equal to a pure probe-sequence function;
  - the input-line filter.
- `ZoneCount`:
  - `get_line_num`'s counting rule;
  - the per-day counting loop and the per-zone insert loop of `insert_zone_db`;
  - the `zone_num` table, as a class holding a multiset of rows (it has no unique index).

## Behaviour of the code worth knowing

- **The XMPP fallback always runs.** The `else:` of tlsa_survey.py:332 sits at the column of the `for` at :327 once tabs are expanded. So it is a `for`-`else` without `break`, and the `jabber.`/`xmpp.` probes always run.
- **Whitespace-only input lines are queued.** The input filter (tlsa_survey.py:355-361) tests the raw line before stripping. A line of spaces becomes an empty task, and an indented comment is queued.
- **The first record decides the failure label.** BAD-PARA versus BAD-HASH is decided by the first TLSA record alone (tlsa_survey.py:263-267).
- **The `len(w) == 0` exits are unreachable.** `str.split` never returns an empty list, so the `sys.exit` branches of `get_tld` (tlsa_survey.py:106-107) and `get_zone`/`get_tld` (dnssec_tlsa_zone_num.py:62-63, 72-73) cannot be taken. `Text.Split` ensures at least one piece.
- **The `sys.exit` branches of `tlsa_select` and `tlsa_match` are unreachable from `is_valid`.** They are modelled as `Exit` results. `Matching.IsValid` never receives one, because the parameter check runs first.
- **Dates are day numbers.** The day before day `d` is `d - 1`.

## Model

| member | source | states |
|---|---|---|
| Text.JoinSplit | tlsa_survey.py:105 | splitting a name on a separator and joining the pieces back gives the name |
| Text.SplitPiecesFree | tlsa_survey.py:114 | no piece of a split contains the separator |
| Text.Strip | tlsa_survey.py:358 | the stripped line has no whitespace at either end and is a contiguous part of the line with only whitespace cut off |
| Text.StripDropsLeadingSpace | tlsa_survey.py:358 | a leading whitespace character does not change the stripped line |
| Text.NatToString | tlsa_survey.py:277 | `str(port)` is a non-empty string of decimal digits, of two or more digits exactly when the port is at least 10 |
| Text.NatToStringInjective | tlsa_survey.py:277 | distinct ports give distinct decimal strings |
| Text.IntToString | tlsa_survey.py:58 | `%d` of an integer is non-empty and starts with '-' exactly when the integer is negative |
| HexFormat.Hexdump | tlsa_survey.py:37-38 | the dump is two lower-case hex digits per byte |
| HexFormat.UnhexHexdump | tlsa_survey.py:37-38 | decoding the dump gives back the bytes, so `hexdump` loses nothing |
| HexFormat.HexdumpInjective | tlsa_survey.py:37-38 | two byte strings have the same dump exactly when they are equal |
| HexFormat.RemoveSpaces | tlsa_survey.py:41 | the result has no space character and is no longer than the input |
| HexFormat.FmtStr | tlsa_survey.py:40-42 | the result has no space and no lower-case letter, and is no longer than the input |
| HexFormat.UnhexFmtHexdump | tlsa_survey.py:37-42 | decoding the upper-cased dump gives back the bytes |
| HexFormat.FmtHexdumpInjective | tlsa_survey.py:68 | compared through `fmt_str`, two dumps are equal exactly when the byte strings are equal |
| HexFormat.UpperHexUnique | tlsa_survey.py:40-42 | hex text without lower-case letters is the upper-cased dump of the bytes it reads as |
| HexFormat.FmtStrMatchesHex | tlsa_survey.py:68 | a text compares equal through `fmt_str` to the dump of some bytes exactly when, formatted, it reads as hex for those bytes |
| HexFormat.FmtStrAppend | tlsa_survey.py:40-42 | `fmt_str` works character by character: it distributes over concatenation |
| HexFormat.FmtStrIgnoresSpace | tlsa_survey.py:41 | inserting a space anywhere does not change `fmt_str` |
| HexFormat.FmtStrIgnoresCase | tlsa_survey.py:42 | strings that differ only in letter case have the same `fmt_str` |
| HexFormat.FmtStrExamples | tlsa_survey.py:40-42 | "AABB", "aa bb" and "aabb" all format to "AABB" |
| HexFormat.FmtStrKeepsTabs | tlsa_survey.py:41 | a tab is not removed, so "aa\tbb" does not compare equal to "aabb" |
| Names.RmLastDot | tlsa_survey.py:98-101 | the result is the name or the name less one final '.'; it is shorter exactly when the name is longer than one character and ends in '.' |
| Names.LabelsShape | tlsa_survey.py:105 | the labels contain no '.', there is more than one exactly when the name has a '.', and they join back to the name |
| Names.GetTldShape | tlsa_survey.py:103-110 | `get_tld` is the last label of the name without its final dot: a dot-free suffix, preceded by '.' unless it is the whole name |
| Names.GetZoneShape | dnssec_tlsa_zone_num.py:59-67 | the labels of `get_zone` are the single label of a one-label name, otherwise its last two labels; it is a suffix of the name without its final dot, preceded by '.' unless it is the whole name, and its last label is `get_tld` of the name |
| Names.SameZoneSameTld | dnssec_tlsa_zone_num.py:59-76 | names in the same second-level zone have the same top-level zone |
| Names.TlsaNameInjective | tlsa_survey.py:276-277 | distinct (name, port) probes query distinct `_port._tcp.name` owner names |
| Matching.TlsaSelect | tlsa_survey.py:52-58 | selector 0 gives the certificate's DER, 1 its public key's DER, any other value exits (with the selector in the message) |
| Matching.MatchHex | tlsa_survey.py:60-67 | matching type 0 gives the raw hex, 1 the SHA-256 hex, 2 the SHA-512 hex, any other value exits, naming it in the message |
| Matching.TlsaMatch | tlsa_survey.py:60-72 | exits exactly for a bad matching type, naming it in the message; otherwise it succeeds exactly when the formatted hex strings agree; a match leaves `err_msg` as it was and a mismatch overwrites the entry at `idx` with both strings |
| Matching.MatchCert | tlsa_survey.py:85-87 | one certificate matches exactly as the specification predicate says; `err_msg` changes only on a mismatch |
| Matching.MatchChain | tlsa_survey.py:83-88 | the loop succeeds exactly when some certificate of the chain matches; a failure leaves the last certificate's mismatch in `err_msg`, and a success leaves the mismatch of the one before the first match |
| Matching.IsValid | tlsa_survey.py:74-96 | the result is the specification `Accepts`; out-of-range parameters set only BAD-PARA and fail before any certificate is looked at; usage 1/3 looks at the first certificate only and usage 0/2 at the whole chain |
| Matching.BadParamsNeverAccepted | tlsa_survey.py:78-81 | a record with usage outside 0..3, selector outside 0..1 or matching type outside 0..2 is never accepted |
| Matching.EndEntityIgnoresRestOfChain | tlsa_survey.py:89-93 | for usage 1/3, certificates after the first never change the result |
| Matching.TrustAnchorAnyCertificate | tlsa_survey.py:83-88 | for usage 0/2, adding a certificate to the chain accepts exactly when the chain did or the new certificate matches |
| Matching.ExactMatchIsByteEquality | tlsa_survey.py:61-68 | with matching type 0, a certificate matches exactly when the selected bytes equal the association data |
| Matching.DigestMatch | tlsa_survey.py:62-68 | with matching type 1 or 2, a certificate matches exactly when the digest of the selected bytes equals the association data's hex, ignoring case and spaces |
| Certs.KeepCerts | tlsa_survey.py:115-118 | every kept certificate is a non-empty, non-newline piece with the end marker put back, every such piece is kept, and there are no more certificates than pieces |
| Certs.SplitCerts | tlsa_survey.py:112-120 | the loop keeps every piece that is neither empty nor a bare newline, with the end marker put back |
| Certs.KeptCertShape | tlsa_survey.py:115-118 | every kept certificate is a non-blank body free of end markers followed by one end marker |
| Certs.SplitCertsShape | tlsa_survey.py:112-120 | every certificate of the split ends with exactly one end marker |
| Certs.CertChain | tlsa_survey.py:149-153 | the chain is None exactly when no certificate was split off, and is never empty otherwise |
| Certs.GetCert | tlsa_survey.py:137-156 | the chain comes from the program's output for the name and server name with their final dots removed |
| Validation.CheckRecord | tlsa_survey.py:245-251 | each flag holds exactly when that chain was fetched and accepts the record; BAD-PARA is recorded exactly when the record's parameters are out of range |
| Validation.Judge | tlsa_survey.py:240-272 | the record loop ends with the label of the specification `EndpointLabel` |
| Validation.NoAddressIgnoresCertificates | tlsa_survey.py:209-214 | without an A answer the label is NO-IP whatever the certificate fetches would give |
| Validation.OkIffSomeValidRecordMatches | tlsa_survey.py:244-259 | the label is OK exactly when some record with valid parameters matches in the SNI or non-SNI chain |
| Validation.AllBadParamsGiveBadPara | tlsa_survey.py:262-267 | when every record has out-of-range parameters the label is BAD-PARA |
| Validation.FirstRecordDecidesFailure | tlsa_survey.py:263-267 | a failing endpoint is BAD-PARA or BAD-HASH as the first record's parameters are invalid or valid |
| Validation.EmptyOnlyForNoRecords | tlsa_survey.py:210 | EMPTY is the label exactly of an empty TLSA answer at an endpoint with an address and a certificate |
| Validation.SniContextOnlyAdds | tlsa_survey.py:248-259 | fetching the SNI chain as well never turns an OK endpoint into a failure |
| Validation.LeafDigestScenario | tlsa_survey.py:89-93 | a single usage-1 SHA-256 record makes the endpoint OK exactly when its data is the leaf's digest, else BAD-HASH |
| Outcomes.LabelTextInjective | tlsa_survey.py:210-267 | each label has its own `valid_info` text |
| Outcomes.RowForInjective | tlsa_survey.py:194-197 | two records of one endpoint give the same row exactly when they are the same record |
| Outcomes.RowForIn | tlsa_survey.py:194-197 | a record's row is written exactly when the record is in the answer |
| Outcomes.RowsForSize | tlsa_survey.py:194-203 | an endpoint adds as many rows as its answer has distinct records |
| Outcomes.RowsForShape | tlsa_survey.py:193-197 | every row carries the endpoint's label, `get_tld` of the name, the round's date and timestamp, and some record's parameters |
| Outcomes.OutcomeTable.constructor | tlsa_survey.py:471-474 | a new table has no rows |
| Outcomes.OutcomeTable.Insert | tlsa_survey.py:198-203 | the row is in the table afterwards, and is reported added exactly when it was not there before |
| Outcomes.OutcomeTable.WriteDb | tlsa_survey.py:190-203 | the table gains exactly the endpoint's rows; rewriting rows already present changes nothing |
| Survey.PortsFor | tlsa_survey.py:320-321 | one probe per port |
| Survey.PortsForAt | tlsa_survey.py:320-321 | the j-th probe is the name at the j-th port |
| Survey.SrvProbes | tlsa_survey.py:330-331 | one probe per SRV record |
| Survey.CrossLength | tlsa_survey.py:319-321 | the nested MX loop issues (exchanges × ports) probes |
| Survey.CrossIndex | tlsa_survey.py:319-321 | the probe at position i·|ports| + j is exchange i at port j, so the exchange is the outer loop |
| Survey.CrossMembers | tlsa_survey.py:319-321 | a probe is issued exactly when its name is an exchange and its port a mail port |
| Survey.ProbesShape | tlsa_survey.py:312-335 | the probes are the web probes, then the mail probes, then the SRV targets, then the four fallback probes |
| Survey.MailCoverage | tlsa_survey.py:317-324 | every MX exchange, or the name itself without an MX answer, is probed on 25, 587 and 465 |
| Survey.SrvCoverage | tlsa_survey.py:327-331 | every target of either SRV answer is probed at its port |
| Survey.SrvProbesMembers | tlsa_survey.py:330-331 | every SRV target of an answer is probed |
| Survey.TwoExchangesScenario | tlsa_survey.py:319-321 | two exchanges give six probes, the first exchange's three before the second's |
| Survey.PortsForMail | tlsa_survey.py:320 | the mail ports are 25, 587, 465 in that order |
| Survey.PortsForXmpp | tlsa_survey.py:334 | the XMPP ports are 5222, 5269 in that order |
| Survey.FallbackExplicit | tlsa_survey.py:332-335 | the fallback probes are `jabber.` then `xmpp.`, each on 5222 then 5269 |
| Survey.ProbeRowsCount | tlsa_survey.py:280-285 | a probe without a TLSA answer writes no row; one with an answer writes a row per distinct record |
| Survey.NoAddressScenario | tlsa_survey.py:209-214 | an endpoint without an A answer is recorded NO-IP |
| Survey.Validator | tlsa_survey.py:205-274 | the label is `EndpointLabel` over the chains fetched without and with SNI, and the table gains that endpoint's rows |
| Survey.TlsaQuery | tlsa_survey.py:280-285 | the table gains the probe's rows, and none without a TLSA answer |
| Survey.Issue | tlsa_survey.py:313-335 | one probe is issued and its rows are added |
| Survey.IssuePorts | tlsa_survey.py:323-324 | the loop issues the name at each port in order |
| Survey.IssueCross | tlsa_survey.py:319-321 | the nested loop issues each exchange at each port, exchange-major |
| Survey.IssueSrv | tlsa_survey.py:330-331 | the loop issues each SRV target in order |
| Survey.IssueMail | tlsa_survey.py:317-324 | the mail section issues exactly the mail probes |
| Survey.IssueXmppSrv | tlsa_survey.py:327-331 | the SRV loop issues the client answer's targets, then the server answer's |
| Survey.SurveyTask | tlsa_survey.py:305-335 | one task issues exactly the pure probe sequence, and the table gains exactly those probes' rows |
| Survey.TaskLines | tlsa_survey.py:355-358 | no more tasks than lines |
| Survey.QueueTasks | tlsa_survey.py:355-361 | the loop queues the stripped form of every line not skipped, in order |
| Survey.TasksStripped | tlsa_survey.py:355-358 | every queued task is the strip of some input line |
| Survey.TaskLinesAppend | tlsa_survey.py:355-361 | the filter works line by line: the tasks of two files in a row are the tasks of each |
| Survey.WhitespaceLineQueued | tlsa_survey.py:356-358 | a line of spaces is queued as an empty task |
| Survey.IndentedCommentQueued | tlsa_survey.py:356-358 | an indented comment is queued, stripped; the same comment in the first column is not |
| ZoneCount.LineCount | dnssec_tlsa_zone_num.py:88-92 | never more than the number of lines |
| ZoneCount.LineCountStep | dnssec_tlsa_zone_num.py:88-92 | each further line adds one exactly when it is counted |
| ZoneCount.GetLineNum | dnssec_tlsa_zone_num.py:78-95 | the loop counts the lines that are non-empty after stripping and do not start with '#' |
| ZoneCount.SkippedNotCounted | dnssec_tlsa_zone_num.py:88-92 | a line the survey's input filter skips is not counted either |
| ZoneCount.LineCountMatchesTasks | dnssec_tlsa_zone_num.py:88-92 | the count equals the number of queued survey tasks that are neither empty nor comments |
| ZoneCount.KeysOf | dnssec_tlsa_zone_num.py:150-153 | one (zone, top-level zone) key per name |
| ZoneCount.KeysConsistent | dnssec_tlsa_zone_num.py:152-153 | equal second-level zones always come with equal top-level zones |
| ZoneCount.SeenZonesAreZones | dnssec_tlsa_zone_num.py:154-155 | the zones marked one name at a time are the distinct second-level zones |
| ZoneCount.TallyStep | dnssec_tlsa_zone_num.py:150-158 | one more name adds its zone to the marked zones and updates the tally by that name's key |
| ZoneCount.TallyName | dnssec_tlsa_zone_num.py:151-158 | one loop body marks the name's zone and increments its top-level zone's count only when the zone is new |
| ZoneCount.CountZones | dnssec_tlsa_zone_num.py:147-158 | from cleared dictionaries, the loop marks exactly the day's distinct zones and leaves the specification tally |
| ZoneCount.TopCountsMeaning | dnssec_tlsa_zone_num.py:150-158 | the tally has a key for exactly each top-level zone seen, counting its distinct second-level zones |
| ZoneCount.ZonesUnderNonEmpty | dnssec_tlsa_zone_num.py:156-158 | every counted top-level zone has at least one second-level zone |
| ZoneCount.CountsSumToZones | dnssec_tlsa_zone_num.py:150-158 | the counts sum to the number of distinct second-level zones and each is at least 1 |
| ZoneCount.DnssecCount | dnssec_tlsa_zone_num.py:164-167 | the `dnssec_zone` value is -1 exactly when the signed-zone file is missing, and a count otherwise |
| ZoneCount.RowsForTldsSize | dnssec_tlsa_zone_num.py:159-179 | one row per top-level zone |
| ZoneCount.RowsForTldsMember | dnssec_tlsa_zone_num.py:159-179 | every row written belongs to one of the top-level zones |
| ZoneCount.RowsForTldsOnce | dnssec_tlsa_zone_num.py:159-179 | the row of each top-level zone handled occurs exactly once among the rows |
| ZoneCount.DayRowsCount | dnssec_tlsa_zone_num.py:159-179 | a day writes exactly one row per top-level zone present that day: `top_zone`'s keys are the day's top-level zones, the rows number them, and each zone's row, carrying its tally, occurs exactly once |
| ZoneCount.DayRowsShape | dnssec_tlsa_zone_num.py:159-179 | each row of a day is stamped with the day before, carries the endpoint count, the zone count (at least 1) and the signed-zone count of the day before |
| ZoneCount.ZoneNumTable.constructor | dnssec_tlsa_zone_num.py:114 | a new table has no rows |
| ZoneCount.ZoneNumTable.Insert | dnssec_tlsa_zone_num.py:173-180 | the table gains one more copy of the row |
| ZoneCount.RowsForTldsAdd | dnssec_tlsa_zone_num.py:159-179 | writing one more top-level zone's row adds that row to the rows written so far |
| ZoneCount.MakeRow | dnssec_tlsa_zone_num.py:160-179 | the row built for a top-level zone is the specification row |
| ZoneCount.InsertRows | dnssec_tlsa_zone_num.py:159-180 | the table gains exactly one row per key of `top_zone` |
| ZoneCount.InsertDay | dnssec_tlsa_zone_num.py:134-180 | one day adds exactly that day's rows, from freshly cleared counts |
| ZoneCount.MatchingRows | dnssec_tlsa_zone_num.py:133-180 | the rows of a run of days, taken day by day from a function that agrees with each day's rows, are the rows of those days |
| ZoneCount.InsertDays | dnssec_tlsa_zone_num.py:133-180 | the loop adds the rows of each day in turn |
| ZoneCount.InsertNextDay | dnssec_tlsa_zone_num.py:134-180 | one pass adds the next day's rows after those of the days before it |
| ZoneCount.InsertZoneDb | dnssec_tlsa_zone_num.py:133-180 | the day loop covers offsets 0 to `num_days` inclusive, and the table gains the rows of each of those days |

## Left out

- Threads, the task queue, `task_done`/`join` and `db_lock` are left out. One task is modelled sequentially, which is what a worker does with it.
- DNS resolution (`send_query`, the resolver, timeouts, the nameserver override) is left out. Every answer is an input function returning `Option`, since every failure becomes None.
- The certificate program, `run_bash` and the `os.path.isfile` check on it are left out. The program's output is an input function of (name, port, server name). The `except` path of `get_cert` is not modelled.
- M2Crypto's X.509 parsing and hashlib's digests are input functions. `load_cert_string` raising on malformed input is not modelled.
- SQL statement text, quoting, connections, commits and table creation are left out. Tables are a set (`tlsa_rdata`, which has a unique index) or a multiset (`zone_num`) of rows.
- The `SELECT` queries of `insert_zone_db` (the names of a day, optionally restricted to one zone, and the endpoint count per top-level zone) are inputs. So is the existence and content of a signed-zone file.
- `tlsa_only_validation` is not part of this model.
- The command line, `main`, `usage`, `init`, `get_serv`, `getopt`, `print_err` and logging are left out.
- Opening files and bz2 decompression are left out. Files are sequences of lines.
- `get_date` calendar arithmetic is left out: days are integers and the day before is `d - 1`. `get_utc_sec` and `this_date` are an input (`Round`).
- Dictionary iteration order in the `zone_num` insert loop is unspecified, so the rows are compared as a multiset.
- The NO-TLSA write path is not modelled, because `write_db` would iterate over None (tlsa_survey.py:237). `tlsa_query` never calls `validator` without an answer. Only the label rule is stated.
- Survey.Validator: the debugging output of the matched and mismatched entries of `err_msg` is not modelled; only which entries exist matters to the label.
