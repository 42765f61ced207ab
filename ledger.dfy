/**
 * The anomaly ledger: an append-only list of the rows flagged as outliers,
 * keyed by award identifier so that a row revisited by the replay is recorded
 * once; and the status each observed row is reported with.
 */
module Ledger {
  import opened Forensics

  /** PASSED for an inlier, FLAGGED for an outlier seen for the first time,
      MONITORED for an outlier whose identifier is already in the ledger. */
  datatype Status = Passed | Flagged | Monitored

  /** The identifiers already recorded. */
  function Ids(ledger: seq<Row>): set<string>
  {
    set i | 0 <= i < |ledger| :: ledger[i].id
  }

  /** The status of `row` given the ledger as it stood before the tick. */
  function StatusOf(row: Row, ledger: seq<Row>): (s: Status)
    ensures s == Passed <==> !IsAnomaly(row)
    ensures s == Flagged <==> IsAnomaly(row) && row.id !in Ids(ledger)
    ensures s == Monitored <==> IsAnomaly(row) && row.id in Ids(ledger)
  {
    var initial := if IsAnomaly(row) then Flagged else Passed;
    if IsAnomaly(row) && row.id in Ids(ledger) then Monitored else initial
  }

  /** The ledger after `row` has been observed. */
  function Observe(ledger: seq<Row>, row: Row): (r: seq<Row>)
    ensures ledger <= r && |r| <= |ledger| + 1
    ensures |r| == |ledger| + 1 <==> StatusOf(row, ledger) == Flagged
    ensures |r| == |ledger| + 1 ==> r[|ledger|] == row
    ensures Ids(r) == if IsAnomaly(row) then Ids(ledger) + {row.id} else Ids(ledger)
  {
    if IsAnomaly(row) && row.id !in Ids(ledger) then ledger + [row] else ledger
  }

  predicate DistinctIds(ledger: seq<Row>)
  {
    forall i, j :: 0 <= i < j < |ledger| ==> ledger[i].id != ledger[j].id
  }

  predicate FlaggedOnly(ledger: seq<Row>)
  {
    forall i :: 0 <= i < |ledger| ==> IsAnomaly(ledger[i])
  }

  /** Observing keeps the identifiers pairwise distinct and admits only outliers. */
  lemma ObservePreservesLedger(ledger: seq<Row>, row: Row)
    requires DistinctIds(ledger) && FlaggedOnly(ledger)
    ensures DistinctIds(Observe(ledger, row)) && FlaggedOnly(Observe(ledger, row))
  {
    var r := Observe(ledger, row);
    if |r| == |ledger| + 1 {
      forall i | 0 <= i < |ledger|
        ensures ledger[i].id != row.id
      {
        assert ledger[i].id in Ids(ledger);
      }
    }
  }

  /** Observing the same row again changes nothing and reports no new anomaly. */
  lemma ObserveIdempotent(ledger: seq<Row>, row: Row)
    ensures Observe(Observe(ledger, row), row) == Observe(ledger, row)
    ensures StatusOf(row, Observe(ledger, row)) == if IsAnomaly(row) then Monitored else Passed
  {
  }

  /** An outlier observed twice from an empty ledger: FLAGGED and added, then
      MONITORED and not added again; one entry. */
  lemma ObserveTwiceFromEmpty(row: Row)
    requires IsAnomaly(row)
    ensures StatusOf(row, []) == Flagged && Observe([], row) == [row]
    ensures StatusOf(row, [row]) == Monitored && Observe([row], row) == [row]
  {
    assert [row][0].id in Ids([row]);
  }

  /** With distinct identifiers the ledger's length is its number of identifiers. */
  lemma {:induction false} LengthIsDistinctCount(ledger: seq<Row>)
    requires DistinctIds(ledger)
    ensures |Ids(ledger)| == |ledger|
  {
    if ledger != [] {
      var front, last := ledger[..|ledger| - 1], ledger[|ledger| - 1];
      assert Ids(ledger) == Ids(front) + {last.id} by {
        assert forall i :: 0 <= i < |front| ==> front[i] == ledger[i];
      }
      assert last.id !in Ids(front);
      LengthIsDistinctCount(front);
    }
  }
}
