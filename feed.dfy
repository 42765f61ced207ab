/**
 * The live feed log: one entry per tick with the recipient's name cut to 35
 * characters, kept to the most recent 1000 entries by dropping the oldest.
 */
module Feed {
  import opened Ledger

  const MaxLogEntries: nat := 1000
  const MaxNameLength: nat := 35

  datatype LogEntry = LogEntry(time: string, name: string, status: Status, color: string)

  /** The display colour of a status. */
  function StatusColor(status: Status): string
  {
    match status
    case Flagged => "#ff4d4d"
    case Passed => "#00f5d4"
    case Monitored => "#FFD700"
  }

  /** `s[:k]`. */
  function Truncate(s: string, k: nat): (r: string)
    ensures |r| <= k && r <= s
    ensures |s| <= k ==> r == s
    ensures |s| > k ==> r == s[..k]
  {
    if |s| <= k then s else s[..k]
  }

  /** The entry logged for a row observed at clock time `time`. */
  function NewEntry(time: string, name: string, status: Status): (e: LogEntry)
    ensures |e.name| <= MaxNameLength && e.name <= name
    ensures |name| <= MaxNameLength ==> e.name == name
    ensures |name| > MaxNameLength ==> e.name == name[..MaxNameLength]
    ensures e.status == status && e.time == time
    ensures e.color == StatusColor(status)
  {
    LogEntry(time, Truncate(name, MaxNameLength), status, StatusColor(status))
  }

  /** Appends `e`; when that makes the log longer than 1000 entries the oldest is dropped. */
  function PushLog(logs: seq<LogEntry>, e: LogEntry): (r: seq<LogEntry>)
    ensures |r| > 0 && r[|r| - 1] == e
    ensures |logs| <= MaxLogEntries ==> |r| <= MaxLogEntries
    ensures |r| == if |logs| < MaxLogEntries then |logs| + 1 else |logs|
    ensures r == (logs + [e])[|logs| + 1 - |r|..]
  {
    var updated := logs + [e];
    if |updated| > MaxLogEntries then updated[1..] else updated
  }

  /** The last `k` entries of `s` (all of them when there are fewer). */
  function Newest(s: seq<LogEntry>, k: nat): (r: seq<LogEntry>)
    ensures |r| == if |s| <= k then |s| else k
    ensures r == s[|s| - |r|..]
  {
    if |s| <= k then s else s[|s| - k..]
  }

  /** The log after pushing each of `entries` in turn. */
  function PushAll(logs: seq<LogEntry>, entries: seq<LogEntry>): seq<LogEntry>
    decreases |entries|
  {
    if entries == [] then logs else PushAll(PushLog(logs, entries[0]), entries[1..])
  }

  /** Keeping the newest k, appending, and keeping the newest k again is the same
      as appending first. */
  lemma NewestOfNewest(a: seq<LogEntry>, b: seq<LogEntry>, k: nat)
    ensures Newest(Newest(a, k) + b, k) == Newest(a + b, k)
  {
    if |a| > k {
      var na := a[|a| - k..];
      var ab := a + b;
      assert na + b == ab[|a| - k..];
      calc {
        Newest(Newest(a, k) + b, k);
        Newest(ab[|a| - k..], k);
        ab[|a| - k..][|b|..];
        { SuffixOfSuffix(ab, |a| - k, |b|); }
        ab[|ab| - k..];
        Newest(ab, k);
      }
    }
  }

  lemma SuffixOfSuffix(s: seq<LogEntry>, i: nat, j: nat)
    requires i + j <= |s|
    ensures s[i..][j..] == s[i + j..]
  {
  }

  /** One push keeps the newest 1000 entries of the log and the new entry. */
  lemma PushLogIsNewest(logs: seq<LogEntry>, e: LogEntry)
    requires |logs| <= MaxLogEntries
    ensures PushLog(logs, e) == Newest(logs + [e], MaxLogEntries)
  {
  }

  /** Started from at most 1000 entries, the log always holds exactly the newest
      1000 of everything logged, in order: only the oldest are ever evicted. */
  lemma {:induction false} PushAllKeepsNewest(logs: seq<LogEntry>, entries: seq<LogEntry>)
    requires |logs| <= MaxLogEntries
    ensures PushAll(logs, entries) == Newest(logs + entries, MaxLogEntries)
    decreases |entries|
  {
    if entries != [] {
      var e, rest := entries[0], entries[1..];
      var next := PushLog(logs, e);
      calc {
        PushAll(logs, entries);
        PushAll(next, rest);
        { PushAllKeepsNewest(next, rest); }
        Newest(next + rest, MaxLogEntries);
        { PushLogIsNewest(logs, e); }
        Newest(Newest(logs + [e], MaxLogEntries) + rest, MaxLogEntries);
        { NewestOfNewest(logs + [e], rest, MaxLogEntries); }
        Newest(logs + [e] + rest, MaxLogEntries);
        { assert logs + [e] + rest == logs + entries; }
        Newest(logs + entries, MaxLogEntries);
      }
    }
  }
}
