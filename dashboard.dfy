/**
 * One tick of the monitoring session: from the replay counter and the stored
 * log and ledger, the row shown, its status, the capital analysed, the anomaly
 * count, the observed digit profile, the scatter partition, and the new log
 * and ledger. A batch that is empty or is only the placeholder row yields the
 * "no data" frame, whose stored log and ledger are empty.
 */
module Dashboard {
  import opened Wrappers
  import opened Amounts
  import opened AwardIds
  import opened Forensics
  import opened Replay
  import opened Benford
  import opened Ledger
  import opened Feed

  /** What a tick shows and stores. `status` is absent in the "no data" frame. */
  datatype Frame = Frame(
    status: Option<Status>,
    capital: real,
    anomalyCount: nat,
    observed: map<nat, real>,
    background: seq<Row>,
    highlighted: seq<nat>,
    logs: seq<LogEntry>,
    ledger: seq<Row>)

  const NoData: Frame := Frame(None, 0.0, 0, map[], [], [], [], [])

  /** The batch holds real rows rather than nothing or the placeholder. */
  predicate HasData(batch: seq<Row>)
  {
    |batch| > 0 && batch[0].id != "N/A"
  }

  function Min(a: nat, b: nat): nat
  {
    if a <= b then a else b
  }

  function AmountValues(batch: seq<Row>): (amounts: seq<real>)
    ensures |amounts| == |batch| && forall i :: 0 <= i < |batch| ==> amounts[i] == Value(batch[i].amount)
  {
    seq(|batch|, i requires 0 <= i < |batch| => Value(batch[i].amount))
  }

  function DigitColumn(batch: seq<Row>): (digits: seq<nat>)
    ensures |digits| == |batch| && forall i :: 0 <= i < |batch| ==> digits[i] == batch[i].digit
  {
    seq(|batch|, i requires 0 <= i < |batch| => batch[i].digit)
  }

  /** The grey points of the scatter: the rows shown so far in the first pass,
      the whole batch once it has wrapped. */
  function Background(batch: seq<Row>, loops: nat, step: nat): seq<Row>
    requires step < |batch|
  {
    if loops > 0 then batch else batch[..step + 1]
  }

  /** The highlighted points of the scatter: the indices, in order, of the batch
      rows whose identifier is among `ids`. */
  function Highlighted(batch: seq<Row>, ids: set<string>): (idx: seq<nat>)
    decreases |batch|
  {
    if batch == [] then []
    else
      var front := Highlighted(batch[..|batch| - 1], ids);
      if batch[|batch| - 1].id in ids then front + [|batch| - 1] else front
  }

  /** The highlighted indices are exactly the rows whose identifier is among
      `ids`, each once, in increasing order. */
  lemma {:induction false} HighlightedIndices(batch: seq<Row>, ids: set<string>)
    ensures var idx := Highlighted(batch, ids);
      && (forall k :: 0 <= k < |idx| ==> idx[k] < |batch| && batch[idx[k]].id in ids)
      && (forall i :: 0 <= i < |batch| && batch[i].id in ids ==> i in idx)
      && (forall k, l :: 0 <= k < l < |idx| ==> idx[k] < idx[l])
    decreases |batch|
  {
    if batch != [] {
      var front := batch[..|batch| - 1];
      HighlightedIndices(front, ids);
      assert forall i :: 0 <= i < |front| ==> front[i] == batch[i];
    }
  }

  /** The frame of tick `n`; `now` is the clock reading, the stores are `None`
      before they were first written. */
  function Tick(batch: seq<Row>, n: nat, now: string,
                currentLogs: Option<seq<LogEntry>>, currentLedger: Option<seq<Row>>): (f: Frame)
    ensures !HasData(batch) ==> f == NoData
    ensures HasData(batch) ==> f.status.Some? && f.anomalyCount == |f.ledger|
  {
    var logs := currentLogs.GetOr([]);
    var ledger := currentLedger.GetOr([]);
    if !HasData(batch) then NoData
    else
      var loops, step := n / |batch|, n % |batch|;
      var row := batch[step];
      var status := StatusOf(row, ledger);
      var updatedLedger := Observe(ledger, row);
      Frame(Some(status), Capital(AmountValues(batch), n), |updatedLedger|,
            Observed(DigitColumn(batch), step), Background(batch, loops, step),
            Highlighted(batch, Ids(updatedLedger)),
            PushLog(logs, NewEntry(now, row.name, status)), updatedLedger)
  }

  /** The tick as the callback computes it, step by step. */
  method UpdateSystem(batch: seq<Row>, n: nat, now: string,
                      currentLogs: Option<seq<LogEntry>>, currentLedger: Option<seq<Row>>)
    returns (f: Frame)
    ensures f == Tick(batch, n, now, currentLogs, currentLedger)
  {
    var logs := if currentLogs.None? then [] else currentLogs.value;
    var ledger := if currentLedger.None? then [] else currentLedger.value;

    var batchSize := |batch|;
    if batchSize == 0 || batch[0].id == "N/A" {
      return NoData;
    }

    var loops := n / batchSize;
    var step := n % batchSize;
    var capital := CapitalAnalysed(AmountValues(batch), n);

    var row := batch[step];
    var status := FeedStatus(row, ledger);
    var updatedLogs := AppendToLog(logs, NewEntry(now, row.name, status));
    var updatedLedger := RecordAnomaly(ledger, row);
    var anomalyCount := |updatedLedger|;

    var observed := Observed(DigitColumn(batch), step);
    var background := SeenRows(batch, n);
    var highlighted := Highlighted(batch, Ids(updatedLedger));

    f := Frame(Some(status), capital, anomalyCount, observed, background, highlighted,
               updatedLogs, updatedLedger);
  }

  /** Every full pass over the batch adds its total; the current pass adds the
      amounts up to and including the row under the cursor. This method and
      `SeenRows` compute `Capital` and `Background` statement by statement, as
      the callback does; they are separate only to keep the proof of
      `UpdateSystem` small, and what they compute is proved about the two
      functions. */
  method CapitalAnalysed(amounts: seq<real>, n: nat) returns (capital: real)
    requires |amounts| > 0
    ensures capital == Capital(amounts, n)
  {
    var loops := n / |amounts|;
    var step := n % |amounts|;
    capital := loops as real * Total(amounts) + Total(amounts[..step + 1]);
  }

  /** The grey points: the whole batch once it has wrapped, else the rows up to the cursor. */
  method SeenRows(batch: seq<Row>, n: nat) returns (rows: seq<Row>)
    requires |batch| > 0
    ensures rows == Background(batch, n / |batch|, n % |batch|)
  {
    var loops := n / |batch|;
    var step := n % |batch|;
    if loops > 0 {
      rows := batch;
    } else {
      rows := batch[..step + 1];
    }
  }

  /** The status line of the feed: PASSED or FLAGGED by the outlier flag,
      FLAGGED turned into MONITORED when the identifier is already recorded. */
  method FeedStatus(row: Row, ledger: seq<Row>) returns (status: Status)
    ensures status == StatusOf(row, ledger)
  {
    var isAnomaly := row.flag == OutlierFlag;
    status := if isAnomaly then Flagged else Passed;
    var existingIds := Ids(ledger);
    if isAnomaly && row.id in existingIds {
      status := Monitored;
    }
  }

  /** Appends the entry and drops the oldest one if the log has grown past its cap. */
  method AppendToLog(logs: seq<LogEntry>, entry: LogEntry) returns (updated: seq<LogEntry>)
    ensures updated == PushLog(logs, entry)
  {
    updated := logs + [entry];
    if |updated| > MaxLogEntries {
      updated := updated[1..];
    }
  }

  /** Copies the ledger and appends the row if it is an outlier not yet recorded. */
  method RecordAnomaly(ledger: seq<Row>, row: Row) returns (updated: seq<Row>)
    ensures updated == Observe(ledger, row)
  {
    var isAnomaly := row.flag == OutlierFlag;
    var existingIds := Ids(ledger);
    updated := ledger;
    if isAnomaly && row.id !in existingIds {
      updated := updated + [row];
    }
  }

  /** Before the first wrap the grey points are exactly the rows shown so far;
      afterwards, the whole batch. */
  lemma BackgroundIsSeenRows(batch: seq<Row>, n: nat)
    requires |batch| > 0
    ensures Background(batch, n / |batch|, n % |batch|) == batch[..Min(n + 1, |batch|)]
  {
    var c := Advance(n, |batch|);
    if c.loops > 0 {
      MulAtLeast(c.loops, |batch|);
      assert batch[..|batch|] == batch;
    }
  }

  /** What a tick on real data shows: the status of the row under the cursor,
      the ledger extended by at most that row, the capital of every tick so far,
      the bounded log ending in the new entry, the rows seen so far and the
      ledger's rows highlighted. */
  lemma TickFrame(batch: seq<Row>, n: nat, now: string,
                  currentLogs: Option<seq<LogEntry>>, currentLedger: Option<seq<Row>>)
    requires HasData(batch)
    ensures var f := Tick(batch, n, now, currentLogs, currentLedger);
      var ledger, logs := currentLedger.GetOr([]), currentLogs.GetOr([]);
      var row := batch[n % |batch|];
      && f.status == Some(StatusOf(row, ledger))
      && ledger <= f.ledger && |f.ledger| <= |ledger| + 1
      && (|f.ledger| == |ledger| + 1 <==> IsAnomaly(row) && row.id !in Ids(ledger))
      && f.capital == CyclicTotal(AmountValues(batch), n)
      && f.ledger == Observe(ledger, row)
      && f.logs == PushLog(logs, NewEntry(now, row.name, f.status.value))
      && f.logs[|f.logs| - 1] == NewEntry(now, row.name, f.status.value)
      && f.observed == Observed(DigitColumn(batch), n % |batch|)
      && (|logs| <= MaxLogEntries ==> |f.logs| <= MaxLogEntries)
      && f.background == batch[..Min(n + 1, |batch|)]
      && (forall i :: 0 <= i < |batch| ==> (i in f.highlighted <==> batch[i].id in Ids(f.ledger)))
      && (forall k :: 0 <= k < |f.highlighted| ==> f.highlighted[k] < |batch|)
      && (forall k, l :: 0 <= k < l < |f.highlighted| ==> f.highlighted[k] < f.highlighted[l])
  {
    CapitalIsCyclicTotal(AmountValues(batch), n);
    BackgroundIsSeenRows(batch, n);
    var f := Tick(batch, n, now, currentLogs, currentLedger);
    HighlightedIndices(batch, Ids(f.ledger));
  }

  /** The ledger's rows are outliers of the batch with pairwise distinct
      identifiers, and a tick keeps it so. */
  predicate LedgerInvariant(batch: seq<Row>, ledger: seq<Row>)
  {
    DistinctIds(ledger) && FlaggedOnly(ledger) && forall k :: 0 <= k < |ledger| ==> ledger[k] in batch
  }

  lemma TickPreservesLedgerInvariant(batch: seq<Row>, n: nat, now: string,
                                     currentLogs: Option<seq<LogEntry>>, ledger: seq<Row>)
    requires LedgerInvariant(batch, ledger)
    ensures var f := Tick(batch, n, now, currentLogs, Some(ledger));
      LedgerInvariant(batch, f.ledger) && f.anomalyCount == |Ids(f.ledger)|
  {
    var f := Tick(batch, n, now, currentLogs, Some(ledger));
    if HasData(batch) {
      TickStoresObserved(batch, n, now, currentLogs, Some(ledger));
      ObserveShownRow(batch, ledger, batch[n % |batch|]);
      LengthIsDistinctCount(f.ledger);
    }
  }

  lemma ObserveShownRow(batch: seq<Row>, ledger: seq<Row>, row: Row)
    requires LedgerInvariant(batch, ledger) && row in batch
    ensures LedgerInvariant(batch, Observe(ledger, row))
  {
    ObservePreservesLedger(ledger, row);
  }

  /** A batch built from fetched records has data exactly when the fetch returned
      some records; otherwise only the placeholder is there and ticks show no data. */
  lemma MasterBatchHasData(md5: string -> HexDigest, raw: seq<RawAward>, flags: seq<int>)
    requires |flags| == |raw|
    requires forall i :: 0 <= i < |flags| ==> flags[i] == OutlierFlag || flags[i] == InlierFlag
    ensures HasData(MasterBatch(RunForensics(AssignIds(md5, raw), flags))) <==> raw != []
  {
    if raw != [] {
      LongIdIsNotPlaceholder(md5, raw[0].shortId);
    }
  }

  /** The ledger of a session that started empty, after ticks 0..n. It holds,
      once each, exactly the outliers among the rows shown so far, however often
      the replay has revisited them. */
  function LedgerAfter(batch: seq<Row>, n: nat): (ledger: seq<Row>)
    requires |batch| > 0
    ensures Ids(ledger) == AnomalyIds(batch[..Min(n + 1, |batch|)])
    ensures DistinctIds(ledger) && FlaggedOnly(ledger)
  {
    if n == 0 then
      FirstTickLedger(batch);
      Observe([], batch[0])
    else
      var prev := LedgerAfter(batch, n - 1);
      NextTickLedger(batch, n, prev);
      Observe(prev, batch[n % |batch|])
  }

  /** Consecutive ticks, each fed the ledger the previous one stored, build LedgerAfter. */
  lemma TicksBuildLedgerAfter(batch: seq<Row>, n: nat, now: string, logs: Option<seq<LogEntry>>)
    requires HasData(batch)
    ensures Tick(batch, 0, now, logs, None).ledger == LedgerAfter(batch, 0)
    ensures Tick(batch, n + 1, now, logs, Some(LedgerAfter(batch, n))).ledger == LedgerAfter(batch, n + 1)
  {
    TickStoresObserved(batch, 0, now, logs, None);
    TickStoresObserved(batch, n + 1, now, logs, Some(LedgerAfter(batch, n)));
  }

  lemma TickStoresObserved(batch: seq<Row>, n: nat, now: string,
                           logs: Option<seq<LogEntry>>, ledger: Option<seq<Row>>)
    requires HasData(batch)
    ensures Tick(batch, n, now, logs, ledger).ledger == Observe(ledger.GetOr([]), batch[n % |batch|])
  {
  }

  /** The identifiers of the outliers among `rows`. */
  function AnomalyIds(rows: seq<Row>): set<string>
  {
    set i | 0 <= i < |rows| && IsAnomaly(rows[i]) :: rows[i].id
  }

  lemma AnomalyIdsExtend(rows: seq<Row>, k: nat)
    requires k < |rows|
    ensures AnomalyIds(rows[..k + 1])
         == if IsAnomaly(rows[k]) then AnomalyIds(rows[..k]) + {rows[k].id} else AnomalyIds(rows[..k])
  {
    var a, b := rows[..k + 1], rows[..k];
    assert forall i :: 0 <= i < k ==> a[i] == b[i];
    assert a[k] == rows[k];
  }

  /** The outliers among the rows shown up to tick n grow by the row of tick n,
      which on a later pass is already among them. */
  lemma SeenAnomaliesStep(batch: seq<Row>, n: nat)
    requires |batch| > 0 && n > 0
    ensures var row := batch[n % |batch|];
      AnomalyIds(batch[..Min(n + 1, |batch|)])
        == if IsAnomaly(row) then AnomalyIds(batch[..Min(n, |batch|)]) + {row.id}
           else AnomalyIds(batch[..Min(n, |batch|)])
  {
    var size := |batch|;
    var k := n % size;
    if n < size {
      assert Min(n + 1, size) == n + 1 && Min(n, size) == n && k == n;
      AnomalyIdsExtend(batch, n);
    } else {
      assert Min(n + 1, size) == size && Min(n, size) == size;
      assert batch[..size] == batch;
      assert IsAnomaly(batch[k]) ==> batch[k].id in AnomalyIds(batch);
    }
  }

  lemma FirstTickLedger(batch: seq<Row>)
    requires |batch| > 0
    ensures Ids(Observe([], batch[0])) == AnomalyIds(batch[..1])
    ensures DistinctIds(Observe([], batch[0])) && FlaggedOnly(Observe([], batch[0]))
  {
    AnomalyIdsExtend(batch, 0);
    assert batch[..0] == [];
    ObservePreservesLedger([], batch[0]);
  }

  lemma NextTickLedger(batch: seq<Row>, n: nat, prev: seq<Row>)
    requires |batch| > 0 && n > 0
    requires Ids(prev) == AnomalyIds(batch[..Min(n, |batch|)])
    requires DistinctIds(prev) && FlaggedOnly(prev)
    ensures Ids(Observe(prev, batch[n % |batch|])) == AnomalyIds(batch[..Min(n + 1, |batch|)])
    ensures DistinctIds(Observe(prev, batch[n % |batch|])) && FlaggedOnly(Observe(prev, batch[n % |batch|]))
  {
    var row := batch[n % |batch|];
    var before := AnomalyIds(batch[..Min(n, |batch|)]);
    ObservePreservesLedger(prev, row);
    calc {
      Ids(Observe(prev, row));
      if IsAnomaly(row) then before + {row.id} else before;
      { SeenAnomaliesStep(batch, n); }
      AnomalyIds(batch[..Min(n + 1, |batch|)]);
    }
  }

  /** Once the first pass is complete the anomaly count stays at the number of
      distinct outlier identifiers in the batch. */
  lemma CountSettlesAfterFirstPass(batch: seq<Row>, n: nat)
    requires |batch| > 0 && n + 1 >= |batch|
    ensures |LedgerAfter(batch, n)| == |AnomalyIds(batch)|
  {
    LengthIsDistinctCount(LedgerAfter(batch, n));
    assert batch[..|batch|] == batch;
  }
}
