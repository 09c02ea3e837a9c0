/** The diagnostics panel of the Electron build (`electron/src/Logs.jsx`): the log entries it
    holds, the level filter, the newest-first display, and the guard that keeps two clears
    from running at once. */
module Logs {
  import opened Wrappers

  datatype LogEntry = LogEntry(id: string, level: string, message: string)

  /** `logs.filter((log) => log.level === level)` */
  function WithLevel(logs: seq<LogEntry>, level: string): (r: seq<LogEntry>)
    ensures |r| <= |logs|
    ensures forall e :: e in r <==> e in logs && e.level == level
  {
    if logs == [] then []
    else (if logs[0].level == level then [logs[0]] else []) + WithLevel(logs[1..], level)
  }

  /** Filtering keeps the original order: it distributes over concatenation. */
  lemma {:induction false} WithLevelAppend(a: seq<LogEntry>, b: seq<LogEntry>, level: string)
    ensures WithLevel(a + b, level) == WithLevel(a, level) + WithLevel(b, level)
  {
    if a != [] {
      WithLevelAppend(a[1..], b, level);
      assert (a + b)[1..] == a[1..] + b;
    } else {
      assert a + b == b;
    }
  }

  /** Entries all of the level are kept as they are; entries none of which has it all go. */
  lemma {:induction false} WithLevelAll(logs: seq<LogEntry>, level: string)
    requires forall i :: 0 <= i < |logs| ==> logs[i].level == level
    ensures WithLevel(logs, level) == logs
  {
    if logs != [] {
      WithLevelAll(logs[1..], level);
      assert [logs[0]] + logs[1..] == logs;
    }
  }

  /** `filteredLogs`: every entry under "all", the entries of the chosen level otherwise. */
  function FilteredLogs(logs: seq<LogEntry>, filter: string): (r: seq<LogEntry>)
    ensures filter == "all" ==> r == logs
    ensures filter != "all" ==> forall e :: e in r <==> e in logs && e.level == filter
  {
    if filter == "all" then logs else WithLevel(logs, filter)
  }

  /** `list.slice().reverse()` */
  function Reverse<T>(s: seq<T>): (r: seq<T>)
    ensures |r| == |s| && forall i :: 0 <= i < |s| ==> r[i] == s[|s| - 1 - i]
  {
    if s == [] then [] else Reverse(s[1..]) + [s[0]]
  }

  /** The entries as the feed lists them: the filtered entries, newest (last) first. */
  function Displayed(logs: seq<LogEntry>, filter: string): (r: seq<LogEntry>)
    ensures |r| == |FilteredLogs(logs, filter)|
    ensures forall i :: 0 <= i < |r| ==> r[i] == FilteredLogs(logs, filter)[|r| - 1 - i]
  {
    Reverse(FilteredLogs(logs, filter))
  }

  /** A new entry at the end of the log is shown first when it passes the filter. */
  lemma NewestShownFirst(logs: seq<LogEntry>, e: LogEntry, filter: string)
    requires filter == "all" || e.level == filter
    ensures Displayed(logs + [e], filter)[0] == e
  {
    if filter != "all" {
      WithLevelAppend(logs, [e], filter);
      assert WithLevel([e], filter) == [e] by {
        assert [e][1..] == [];
      }
    }
  }

  /** What `getLogs` or the update event delivered: an array of entries or something else. */
  datatype Payload = Entries(items: seq<LogEntry>) | NotAnArray

  /** `Array.isArray(data) ? data : []` */
  function EntriesOf(p: Payload): (r: seq<LogEntry>)
    ensures p.Entries? ==> r == p.items
    ensures p.NotAnArray? ==> r == []
  {
    match p
    case Entries(items) => items
    case NotAnArray => []
  }

  /** The panel's state: the entries, the chosen filter, the clearing flag, and the number of
      `clearLogs` calls made. */
  class LogsPanel {
    var logs: seq<LogEntry>
    var filter: string
    var isClearing: bool
    var clearCalls: nat

    constructor ()
      ensures logs == [] && filter == "all" && !isClearing && clearCalls == 0
    {
      logs := [];
      filter := "all";
      isClearing := false;
      clearCalls := 0;
    }

    /** `loadLogs`: a delivered payload replaces the entries; a failed call (`None`) leaves
        them. */
    method LoadLogs(delivered: Option<Payload>)
      modifies this
      ensures logs == if delivered.Some? then EntriesOf(delivered.value) else old(logs)
      ensures filter == old(filter) && isClearing == old(isClearing) && clearCalls == old(clearCalls)
    {
      if delivered.Some? {
        logs := EntriesOf(delivered.value);
      }
    }

    /** The `onLogsUpdated` listener. */
    method OnLogsUpdated(p: Payload)
      modifies this
      ensures logs == EntriesOf(p)
      ensures filter == old(filter) && isClearing == old(isClearing) && clearCalls == old(clearCalls)
    {
      logs := EntriesOf(p);
    }

    method SetFilter(f: string)
      modifies this
      ensures filter == f && logs == old(logs) && isClearing == old(isClearing) && clearCalls == old(clearCalls)
    {
      filter := f;
    }

    /** `handleClear` up to its first `await`: nothing while a clear is running; otherwise
        the flag goes up and `clearLogs` is called. */
    method StartClear() returns (started: bool)
      modifies this
      ensures started <==> !old(isClearing)
      ensures isClearing
      ensures clearCalls == old(clearCalls) + (if started then 1 else 0)
      ensures logs == old(logs) && filter == old(filter)
    {
      if isClearing {
        return false;
      }
      isClearing := true;
      clearCalls := clearCalls + 1;
      started := true;
    }

    /** The rest of `handleClear`: when `clearLogs` succeeded the entries are reloaded; on
        every path the flag comes down. */
    method FinishClear(cleared: bool, reloaded: Option<Payload>)
      requires isClearing
      modifies this
      ensures !isClearing
      ensures logs == if cleared && reloaded.Some? then EntriesOf(reloaded.value) else old(logs)
      ensures filter == old(filter) && clearCalls == old(clearCalls)
    {
      if cleared {
        LoadLogs(reloaded);
      }
      isClearing := false;
    }
  }

  /** However `handleClear` runs, two presses while it is running issue one `clearLogs`
      call, and the flag is down once it has finished. */
  method ClearTwice(panel: LogsPanel, cleared: bool, reloaded: Option<Payload>) returns (calls: nat)
    requires !panel.isClearing
    modifies panel
    ensures calls == 1 && panel.clearCalls == old(panel.clearCalls) + 1 && !panel.isClearing
  {
    var first := panel.StartClear();
    var second := panel.StartClear();
    panel.FinishClear(cleared, reloaded);
    calls := (if first then 1 else 0) + (if second then 1 else 0);
  }
}
