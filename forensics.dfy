/**
 * The annotated batch: fetched awards with their long identifiers, the outlier
 * flag of the detector and the leading-digit class of the amount.
 */
module Forensics {
  import opened Amounts
  import opened AwardIds

  /** An award as the data source returns it. */
  datatype RawAward = RawAward(shortId: string, name: string, amount: Decimal)

  /** An award after its identifier has been lengthened. */
  datatype Award = Award(id: string, name: string, amount: Decimal)

  /** A row of the annotated batch; `flag` is -1 for an outlier and 1 otherwise. */
  datatype Row = Row(id: string, name: string, amount: Decimal, flag: int, digit: nat)

  const OutlierFlag: int := -1
  const InlierFlag: int := 1

  predicate IsAnomaly(row: Row)
  {
    row.flag == OutlierFlag
  }

  /** Replaces every short identifier by its long identifier. */
  function AssignIds(md5: string -> HexDigest, raw: seq<RawAward>): (awards: seq<Award>)
    ensures |awards| == |raw|
    ensures forall i :: 0 <= i < |raw| ==>
      awards[i].id == MakeLongId(md5, raw[i].shortId) &&
      awards[i].name == raw[i].name && awards[i].amount == raw[i].amount
  {
    seq(|raw|, i requires 0 <= i < |raw| =>
      Award(MakeLongId(md5, raw[i].shortId), raw[i].name, raw[i].amount))
  }

  predicate DistinctShortIds(raw: seq<RawAward>)
  {
    forall i, j :: 0 <= i < j < |raw| ==> raw[i].shortId != raw[j].shortId
  }

  predicate DistinctAwardIds(awards: seq<Award>)
  {
    forall i, j :: 0 <= i < j < |awards| ==> awards[i].id != awards[j].id
  }

  /** Identifiers unique among the source's records stay unique in the batch. */
  lemma AssignIdsKeepsIdsDistinct(md5: string -> HexDigest, raw: seq<RawAward>)
    requires DistinctShortIds(raw)
    ensures DistinctAwardIds(AssignIds(md5, raw))
  {
    var awards := AssignIds(md5, raw);
    forall i, j | 0 <= i < j < |awards|
      ensures awards[i].id != awards[j].id
    {
      if awards[i].id == awards[j].id {
        MakeLongIdInjective(md5, raw[i].shortId, raw[j].shortId);
      }
    }
  }

  /** Annotates every award with the detector's flag and its leading digit;
      an empty batch stays empty. `flags` is the detector's output, one -1 or 1
      per award. */
  function RunForensics(awards: seq<Award>, flags: seq<int>): (rows: seq<Row>)
    requires |flags| == |awards|
    requires forall i :: 0 <= i < |flags| ==> flags[i] == OutlierFlag || flags[i] == InlierFlag
    ensures |rows| == |awards|
    ensures forall i :: 0 <= i < |rows| ==>
      && rows[i].id == awards[i].id && rows[i].name == awards[i].name
      && rows[i].amount == awards[i].amount && rows[i].flag == flags[i]
      && rows[i].digit == LeadingDigit(awards[i].amount)
      && rows[i].digit <= 9 && (rows[i].digit == 0 <==> awards[i].amount.units == 0)
  {
    if awards == [] then []
    else
      seq(|awards|, i requires 0 <= i < |awards| =>
        Row(awards[i].id, awards[i].name, awards[i].amount, flags[i], LeadingDigit(awards[i].amount)))
  }

  /** The row shown while no data could be fetched. */
  const Placeholder: Row := Row("N/A", "WAITING FOR DATA CONNECTION...", Decimal(0, 0), InlierFlag, 0)

  /** The batch the session replays: the annotated rows, or the placeholder alone. */
  function MasterBatch(rows: seq<Row>): (batch: seq<Row>)
    ensures |batch| > 0
    ensures rows != [] ==> batch == rows
    ensures rows == [] ==> batch == [Placeholder] && batch[0].id == "N/A"
  {
    if rows == [] then [Placeholder] else rows
  }
}
