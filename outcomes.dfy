/** The `tlsa_rdata` table and `write_db` (tlsa_survey.py:190-203): one
    row per TLSA record of a probed endpoint. The unique index over all
    twelve columns (tlsa_survey.py:471-474) makes a repeated insert fail
    and be rolled back, so the table behaves as a set of rows. */
module Outcomes {
  import opened Basics
  import opened HexFormat
  import opened Names
  import opened Matching
  import opened Validation

  /** The survey run's date (`this_date`) and start time (`TIMESTAMP`). */
  datatype Round = Round(year: int, month: int, day: int, timestamp: int)

  /** The twelve columns of `tlsa_rdata`. */
  datatype OutcomeRow = OutcomeRow(
    zone: string, year: int, month: int, day: int, timestamp: int,
    name: string, port: nat, validInfo: string,
    certUsage: int, selector: int, mtype: int, certInfo: string)

  /** The row written for record `r` of the endpoint `name:port`. */
  function RowFor(round: Round, name: string, port: nat, outcome: Label, r: TlsaRecord): OutcomeRow {
    OutcomeRow(GetTld(name), round.year, round.month, round.day, round.timestamp,
               name, port, outcome.Text(), r.usage, r.selector, r.mtype, Hexdump(r.cert))
  }

  /** The rows written for all the records of one endpoint. */
  function RowsFor(round: Round, name: string, port: nat, outcome: Label, records: seq<TlsaRecord>): set<OutcomeRow> {
    set r | r in records :: RowFor(round, name, port, outcome, r)
  }

  /** The distinct records of an answer. */
  function Distinct(records: seq<TlsaRecord>): set<TlsaRecord> {
    set r | r in records
  }

  /** Each label has its own column text. */
  lemma LabelTextInjective(a: Label, b: Label)
    ensures a.Text() == b.Text() <==> a == b
  {
    var s, t := a.Text(), b.Text();
    if a != b {
      assert |s| != |t| || s[|s| - 1] != t[|t| - 1];
    }
  }

  /** Two records of one endpoint give the same row only when they are
      the same record: the hex column keeps all the association data. */
  lemma RowForInjective(round: Round, name: string, port: nat, outcome: Label, r1: TlsaRecord, r2: TlsaRecord)
    ensures RowFor(round, name, port, outcome, r1) == RowFor(round, name, port, outcome, r2) <==> r1 == r2
  {
    HexdumpInjective(r1.cert, r2.cert);
  }

  lemma RowsForSnoc(round: Round, name: string, port: nat, outcome: Label, records: seq<TlsaRecord>, r: TlsaRecord)
    ensures RowsFor(round, name, port, outcome, records + [r]) ==
            RowsFor(round, name, port, outcome, records) + {RowFor(round, name, port, outcome, r)}
  {
    var ext := records + [r];
    assert forall x :: x in ext <==> x in records || x == r;
  }

  lemma RowsForStep(round: Round, name: string, port: nat, outcome: Label, records: seq<TlsaRecord>, i: nat)
    requires i < |records|
    ensures RowsFor(round, name, port, outcome, records[..i + 1]) ==
            RowsFor(round, name, port, outcome, records[..i]) + {RowFor(round, name, port, outcome, records[i])}
  {
    assert records[..i + 1] == records[..i] + [records[i]];
    RowsForSnoc(round, name, port, outcome, records[..i], records[i]);
  }

  lemma RowForIn(round: Round, name: string, port: nat, outcome: Label, records: seq<TlsaRecord>, r: TlsaRecord)
    ensures RowFor(round, name, port, outcome, r) in RowsFor(round, name, port, outcome, records) <==> r in records
  {
    if RowFor(round, name, port, outcome, r) in RowsFor(round, name, port, outcome, records) {
      var r1 :| r1 in records && RowFor(round, name, port, outcome, r1) == RowFor(round, name, port, outcome, r);
      RowForInjective(round, name, port, outcome, r1, r);
    }
  }

  lemma DistinctSnoc(records: seq<TlsaRecord>, r: TlsaRecord)
    ensures Distinct(records + [r]) == Distinct(records) + {r}
  {
    var ext := records + [r];
    assert forall x :: x in ext <==> x in records || x == r;
  }

  /** Exactly one row per distinct record. */
  lemma {:induction false} RowsForSize(round: Round, name: string, port: nat, outcome: Label, records: seq<TlsaRecord>)
    ensures |RowsFor(round, name, port, outcome, records)| == |Distinct(records)|
  {
    if |records| > 0 {
      var init, r := records[..|records| - 1], records[|records| - 1];
      RowsForSize(round, name, port, outcome, init);
      assert records == init + [r];
      DistinctSnoc(init, r);
      RowsForSnoc(round, name, port, outcome, init, r);
      RowForIn(round, name, port, outcome, init, r);
      var rows, row := RowsFor(round, name, port, outcome, init), RowFor(round, name, port, outcome, r);
      if r in init {
        assert Distinct(records) == Distinct(init);
        assert RowsFor(round, name, port, outcome, records) == rows;
      } else {
        assert |Distinct(init) + {r}| == |Distinct(init)| + 1;
        assert |rows + {row}| == |rows| + 1;
      }
    } else {
      assert RowsFor(round, name, port, outcome, records) == {};
      assert Distinct(records) == {};
    }
  }

  /** Every row of an endpoint carries its label, its top-level zone,
      the round's date and time, and the fields of one of its records,
      whose association data reads back from the hex column. */
  lemma RowsForShape(round: Round, name: string, port: nat, outcome: Label, records: seq<TlsaRecord>,
                     row: OutcomeRow)
    requires row in RowsFor(round, name, port, outcome, records)
    ensures row.validInfo == outcome.Text() && row.zone == GetTld(name) && '.' !in row.zone
    ensures row.name == name && row.port == port
    ensures (row.year, row.month, row.day, row.timestamp) == (round.year, round.month, round.day, round.timestamp)
    ensures exists r :: r in records && (r.usage, r.selector, r.mtype) == (row.certUsage, row.selector, row.mtype)
                        && Unhex(row.certInfo) == Some(r.cert)
  {
    var r :| r in records && row == RowFor(round, name, port, outcome, r);
    UnhexHexdump(r.cert);
    GetTldShape(name);
  }

  /** The table: a set of rows, because of the unique index. */
  class OutcomeTable {
    var rows: set<OutcomeRow>

    constructor ()
      ensures rows == {}
    {
      rows := {};
    }

    /** One INSERT and commit; a row already present violates the unique
        index and is rolled back. `added` tells which happened. */
    method Insert(row: OutcomeRow) returns (added: bool)
      modifies this
      ensures rows == old(rows) + {row}
      ensures added <==> row !in old(rows)
    {
      if row in rows {
        added := false;
      } else {
        rows := rows + {row};
        added := true;
      }
    }

    /** `write_db(qn, port, tlsa_ans, valid_info)`: drop the trailing dot
        and insert one row per record. Writing the same endpoint twice in
        a round leaves the table as the first write left it. */
    method WriteDb(round: Round, qn: string, port: nat, records: seq<TlsaRecord>, outcome: Label)
      modifies this
      ensures rows == old(rows) + RowsFor(round, RmLastDot(qn), port, outcome, records)
      ensures RowsFor(round, RmLastDot(qn), port, outcome, records) <= old(rows) ==> rows == old(rows)
    {
      var name := RmLastDot(qn);
      for i := 0 to |records|
        invariant rows == old(rows) + RowsFor(round, name, port, outcome, records[..i])
      {
        var r := records[i];
        var ct := Hexdump(r.cert);
        var tld := GetTld(name);
        RowsForStep(round, name, port, outcome, records, i);
        var _ := Insert(OutcomeRow(tld, round.year, round.month, round.day, round.timestamp,
                                   name, port, outcome.Text(), r.usage, r.selector, r.mtype, ct));
      }
      assert records[..|records|] == records;
    }
  }
}
