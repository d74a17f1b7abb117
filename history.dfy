/** The detection history: a newest-first list of records kept in one
    storage slot, capped in length, with a debounce against the newest
    record. */
module History {
  import opened Tracking

  /** The most records kept. */
  const Capacity: nat := 50

  /** A second record of the same label is skipped within this window (ms). */
  const DebounceWindow: int := 10000

  /** A saved detection, all its fields kept, with the save time and the
      formatted date. */
  datatype Record = Record(detection: Detection, timestamp: int, dateString: string)

  /** What the storage slot holds: nothing, a list that parses, or text that
      does not parse. */
  datatype Stored = Missing | Holds(records: seq<Record>) | Unparsable

  /** `true`, nothing (`undefined`) and `false` in the source. */
  datatype SaveResult = Saved | Skipped | Failed

  /** The history as read from the slot: the empty list unless it parses. */
  function Parse(s: Stored): (h: seq<Record>)
    ensures s.Holds? ==> h == s.records
    ensures !s.Holds? ==> h == []
  {
    if s.Holds? then s.records else []
  }

  /** The newest record has the same label and is less than the window old. */
  predicate Debounced(h: seq<Record>, d: Detection, now: int) {
    |h| > 0 && h[0].detection.name == d.name && now - h[0].timestamp < DebounceWindow
  }

  function MinNat(a: nat, b: nat): nat { if a <= b then a else b }

  /** `rec` in front of `h`, cut to the first `Capacity` entries. */
  function Prepend(rec: Record, h: seq<Record>): (r: seq<Record>)
    ensures 0 < |r| <= Capacity && r[0] == rec
  {
    ([rec] + h)[..MinNat(|h| + 1, Capacity)]
  }

  /** The new record comes first, the earlier ones follow in their order,
      and only the oldest are dropped, so that at most `Capacity` remain. */
  lemma PrependShape(rec: Record, h: seq<Record>)
    ensures |Prepend(rec, h)| == MinNat(|h| + 1, Capacity)
    ensures |Prepend(rec, h)| <= Capacity
    ensures Prepend(rec, h)[0] == rec
    ensures Prepend(rec, h)[1..] == h[..|Prepend(rec, h)| - 1]
    ensures |h| < Capacity ==> Prepend(rec, h) == [rec] + h
  {
  }

  /** Only the newest record matters to the debounce. */
  lemma OnlyNewestConsulted(h: seq<Record>, d: Detection, now: int)
    requires |h| > 0
    ensures Debounced(h, d, now) == Debounced(h[..1], d, now)
    ensures h[0].detection.name != d.name ==> !Debounced(h, d, now)
  {
  }

  /** A same-label record within the window that is not the newest does not
      suppress the save. */
  lemma OlderDuplicateDoesNotSuppress(newest: Record, older: Record, d: Detection, now: int)
    requires newest.detection.name != d.name
    requires older.detection.name == d.name && now - older.timestamp < DebounceWindow
    ensures !Debounced([newest, older], d, now)
  {
  }

  /** A save the debounce lets through always changes the history, even a
      full one: the new record differs from the newest one kept. Together
      with `HistoryStore.SaveDetection` this makes a successful write leave
      the history unchanged exactly when the save was debounced. */
  lemma UndebouncedSaveChangesHistory(h: seq<Record>, d: Detection, now: int, dateString: string)
    requires !Debounced(h, d, now)
    ensures Prepend(Record(d, now, dateString), h) != h
  {
  }

  /** After a save of a label, a second save of the same label less than the
      window later is skipped. */
  lemma SecondSaveWithinWindowSkipped(h: seq<Record>, d1: Detection, t1: int, dateString: string,
                                      d2: Detection, t2: int)
    requires d2.name == d1.name && t2 - t1 < DebounceWindow
    ensures Debounced(Prepend(Record(d1, t1, dateString), h), d2, t2)
  {
  }

  /** The slot the page writes the history to. */
  class HistoryStore {
    var stored: Stored

    constructor (initial: Stored)
      ensures stored == initial
    {
      stored := initial;
    }

    method GetHistory() returns (h: seq<Record>)
      ensures stored.Holds? ==> h == stored.records
      ensures !stored.Holds? ==> h == []
    {
      match stored
      case Holds(records) => h := records;
      case _ => h := [];
    }

    /** Record `d` at time `now`. `dateString` is the formatted date and
        `writeSucceeds` says whether the storage write goes through. */
    method SaveDetection(d: Detection, now: int, dateString: string, writeSucceeds: bool) returns (r: SaveResult)
      modifies this
      ensures Debounced(Parse(old(stored)), d, now) ==> r == Skipped && stored == old(stored)
      ensures !Debounced(Parse(old(stored)), d, now) && !writeSucceeds ==> r == Failed && stored == old(stored)
      ensures !Debounced(Parse(old(stored)), d, now) && writeSucceeds ==>
        r == Saved && stored == Holds(Prepend(Record(d, now, dateString), Parse(old(stored))))
    {
      var history := GetHistory();
      if Debounced(history, d, now) {
        return Skipped;
      }
      var newRecord := Record(d, now, dateString);
      var updated := Prepend(newRecord, history);
      if !writeSucceeds {
        return Failed;
      }
      stored := Holds(updated);
      r := Saved;
    }

    method ClearHistory()
      modifies this
      ensures stored == Missing
      ensures Parse(stored) == []
    {
      stored := Missing;
    }
  }
}
