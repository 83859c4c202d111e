/**
 * The bookkeeping engine of `SlotTracker`: counters, history, pending
 * selection, the analysis cache and the data file, with the commands that
 * change them. Widgets, message boxes and real file I/O are not modelled;
 * each I/O outcome is a boolean parameter.
 */
module Tracker {
  import opened Wrappers
  import opened Registry
  import opened Counting
  import opened History
  import opened EventLog
  import opened Statistics
  import opened Ranking

  /**
   * The aggregates of a history: the total is its length, its rounds name
   * registered slots, and each counter is the tally of its side.
   */
  ghost predicate Aggregated(h: seq<Round>, total: nat, starts: map<int, nat>, ends: map<int, nat>) {
    && total == |h|
    && (forall i :: 0 <= i < |h| ==> ValidRound(h[i]))
    && starts == Tally(Starts(h))
    && ends == Tally(Ends(h))
  }

  /**
   * The analysis cache, when present, is the adjacency of the first n rounds
   * of the history: the rounds there were when it was built.
   */
  ghost predicate Snapshot(h: seq<Round>, cache: Option<map<int, seq<int>>>, n: nat) {
    cache.Some? ==> n <= |h| && cache.value == Adjacency(h[..n])
  }

  /** Counting one more registered round keeps the aggregates those of the longer history. */
  lemma AggregatedSnoc(h: seq<Round>, total: nat, starts: map<int, nat>, ends: map<int, nat>, r: Round)
    requires Aggregated(h, total, starts, ends) && ValidRound(r)
    ensures Aggregated(h + [r], total + 1, starts[r.start := Get(starts, r.start, 0) + 1], ends[r.end := Get(ends, r.end, 0) + 1])
  {
    StartsSnoc(h, r);
    TallySnoc(Starts(h), r.start);
    TallySnoc(Ends(h), r.end);
  }

  /** A snapshot of a prefix stays one when the history grows. */
  lemma SnapshotSnoc(h: seq<Round>, cache: Option<map<int, seq<int>>>, n: nat, r: Round)
    requires Snapshot(h, cache, n)
    ensures Snapshot(h + [r], cache, n)
  {
    if cache.Some? {
      assert (h + [r])[..n] == h[..n];
    }
  }

  class SlotTracker {
    /** `start_counter`, `end_counter`: keys are the slots incremented at least once. */
    var startCounter: map<int, nat>
    var endCounter: map<int, nat>
    /** `history_data`, oldest round first. */
    var history: seq<Round>
    var totalRounds: nat
    /** `selected_start`, `selected_end` */
    var selectedStart: Option<int>
    var selectedEnd: Option<int>
    /** `start_slot_mapping`: None while the attribute does not exist. */
    var startSlotMapping: Option<map<int, seq<int>>>
    /** The number of rounds the analysis cache was built from. */
    ghost var cachedRounds: nat
    /** `data.csv` and `data.csv.backup`: None while the file does not exist. */
    var dataFile: Option<seq<Row>>
    var backupFile: Option<seq<Row>>

    /**
     * The standing invariant: the aggregates are those of the history, a
     * pending selection is a registered slot, and the cache, when present,
     * is a snapshot of an earlier prefix of the history.
     */
    ghost predicate Valid()
      reads this
    {
      && Aggregated(history, totalRounds, startCounter, endCounter)
      && (selectedStart.Some? ==> IsSlot(selectedStart.value))
      && (selectedEnd.Some? ==> IsSlot(selectedEnd.value))
      && Snapshot(history, startSlotMapping, cachedRounds)
    }

    /** `__init__` without the widgets: empty state, then `load_data` on the given file. */
    constructor (file: Option<seq<Row>>, backup: Option<seq<Row>>, readOk: bool)
      ensures Valid()
      ensures history == if file.Some? && readOk then LoadedRounds(file.value) else []
      ensures selectedStart == None && selectedEnd == None && startSlotMapping == None
      ensures dataFile == file && backupFile == backup
    {
      startCounter, endCounter := map[], map[];
      history, totalRounds := [], 0;
      selectedStart, selectedEnd := None, None;
      startSlotMapping, cachedRounds := None, 0;
      dataFile, backupFile := file, backup;
      new;
      LoadData(readOk);
    }

    /**
     * Count one round: the four updates `load_data` and `register_round`
     * both make. The cache is not touched.
     */
    method Record(r: Round)
      requires Valid() && ValidRound(r)
      modifies this`startCounter, this`endCounter, this`history, this`totalRounds
      ensures Valid()
      ensures history == old(history) + [r] && totalRounds == old(totalRounds) + 1
      ensures startCounter == old(startCounter)[r.start := Get(old(startCounter), r.start, 0) + 1]
      ensures endCounter == old(endCounter)[r.end := Get(old(endCounter), r.end, 0) + 1]
    {
      AggregatedSnoc(history, totalRounds, startCounter, endCounter, r);
      SnapshotSnoc(history, startSlotMapping, cachedRounds, r);
      startCounter := startCounter[r.start := Get(startCounter, r.start, 0) + 1];
      endCounter := endCounter[r.end := Get(endCounter, r.end, 0) + 1];
      history := history + [r];
      totalRounds := totalRounds + 1;
    }

    /**
     * `load_data`: nothing when the file is absent or cannot be opened;
     * otherwise every row with two integer fields naming registered slots is
     * counted, in file order, and every other row is skipped.
     */
    method LoadData(readOk: bool)
      requires Valid()
      modifies this`startCounter, this`endCounter, this`history, this`totalRounds
      ensures Valid()
      ensures history == old(history) + (if dataFile.Some? && readOk then LoadedRounds(dataFile.value) else [])
      ensures selectedStart == old(selectedStart) && selectedEnd == old(selectedEnd)
      ensures startSlotMapping == old(startSlotMapping)
      ensures dataFile == old(dataFile) && backupFile == old(backupFile)
    {
      if dataFile.None? || !readOk {
        return;
      }
      LoadRows(dataFile.value);
    }

    /** The loop of `load_data` over the rows of the opened file. */
    method LoadRows(rows: seq<Row>)
      requires Valid()
      modifies this`startCounter, this`endCounter, this`history, this`totalRounds
      ensures Valid()
      ensures history == old(history) + LoadedRounds(rows)
    {
      var rest := rows;
      while rest != []
        invariant Valid()
        invariant history + LoadedRounds(rest) == old(history) + LoadedRounds(rows)
        decreases |rest|
      {
        ghost var before := history;
        LoadRow(rest[0]);
        assert history + LoadedRounds(rest[1..]) == before + LoadedRounds(rest);
        rest := rest[1..];
      }
    }

    /**
     * The body of the loop in `load_data`: a row with two integer fields
     * naming registered slots is counted; any other row is skipped.
     */
    method LoadRow(row: Row)
      requires Valid()
      modifies this`startCounter, this`endCounter, this`history, this`totalRounds
      ensures Valid()
      ensures history == old(history) + RowRounds(row)
    {
      if |row| >= 2 && row[0].Some? && row[1].Some? {
        var start, end := row[0].value, row[1].value;
        if IsSlot(start) && IsSlot(end) {
          Record(Round(start, end));
        }
      }
    }

    /** `save_round`: append the row `[start, end]`, creating the file; a failed write changes nothing. */
    method SaveRound(start: int, end: int, writeOk: bool)
      modifies this`dataFile
      ensures dataFile == if writeOk then Some(RowsOf(old(dataFile)) + [SavedRow(start, end)]) else old(dataFile)
    {
      if writeOk {
        dataFile := Some(RowsOf(dataFile) + [SavedRow(start, end)]);
      }
    }

    /**
     * `handle_selection`: "start" or "end" replaces that pending choice; any
     * other selection type does nothing. The buttons only offer registered slots.
     */
    method HandleSelection(slot: int, selectionType: string)
      requires Valid() && IsSlot(slot)
      modifies this`selectedStart, this`selectedEnd
      ensures Valid()
      ensures selectedStart == if selectionType == "start" then Some(slot) else old(selectedStart)
      ensures selectedEnd == if selectionType == "end" then Some(slot) else old(selectedEnd)
    {
      if selectionType == "start" {
        selectedStart := Some(slot);
      } else if selectionType == "end" {
        selectedEnd := Some(slot);
      }
    }

    /**
     * `register_round`: with a selection missing, nothing changes and
     * `recorded` is false. Otherwise the round is counted in memory first,
     * then saved (a failed save is only reported), and the selection is
     * cleared. The analysis cache is left as it was.
     */
    method RegisterRound(writeOk: bool) returns (recorded: bool)
      requires Valid()
      modifies this
      ensures Valid()
      ensures recorded <==> old(selectedStart).Some? && old(selectedEnd).Some?
      ensures !recorded ==> unchanged(this)
      ensures recorded ==>
        var r := Round(old(selectedStart).value, old(selectedEnd).value);
        && history == old(history) + [r]
        && totalRounds == old(totalRounds) + 1
        && startCounter == old(startCounter)[r.start := Get(old(startCounter), r.start, 0) + 1]
        && endCounter == old(endCounter)[r.end := Get(old(endCounter), r.end, 0) + 1]
        && dataFile == (if writeOk then Some(RowsOf(old(dataFile)) + [SavedRow(r.start, r.end)]) else old(dataFile))
        && selectedStart == None && selectedEnd == None
      ensures startSlotMapping == old(startSlotMapping) && backupFile == old(backupFile)
    {
      if selectedStart.None? || selectedEnd.None? {
        return false;
      }
      var start, end := selectedStart.value, selectedEnd.value;
      Record(Round(start, end));
      SaveRound(start, end, writeOk);
      selectedStart, selectedEnd := None, None;
      recorded := true;
    }

    /**
     * `preprocess_data`: when the cache is absent, build it from the whole
     * history, appending each end to the list of its start; when it exists,
     * change nothing.
     */
    method PreprocessData()
      requires Valid()
      modifies this`startSlotMapping, this`cachedRounds
      ensures Valid()
      ensures old(startSlotMapping).Some? ==> unchanged(this)
      ensures old(startSlotMapping).None? ==> startSlotMapping == Some(Adjacency(history)) && cachedRounds == |history|
    {
      if startSlotMapping.None? {
        var mapping: map<int, seq<int>> := map[];
        var i := 0;
        while i < |history|
          invariant 0 <= i <= |history|
          invariant mapping == Adjacency(history[..i])
        {
          assert history[..i + 1] == history[..i] + [history[i]];
          AdjacencySnoc(history[..i], history[i]);
          var s, e := history[i].start, history[i].end;
          mapping := mapping[s := Get(mapping, s, []) + [e]];
          i := i + 1;
        }
        assert history[..i] == history;
        startSlotMapping := Some(mapping);
        cachedRounds := |history|;
      }
    }

    /**
     * The ranking part of `show_top_5_end_slots`: the top-5 rows for a start,
     * read from the cache; None when the cache is absent (the lookup raises).
     * The rows rank the ends the cached history recorded for that start.
     */
    method TopFiveEndSlots(start: int) returns (rows: Option<seq<Ranked>>)
      requires Valid() && IsSlot(start)
      ensures rows.None? <==> startSlotMapping.None?
      ensures rows.Some? ==> rows.value == TopEndSlots(startSlotMapping.value, start)
      ensures rows.Some? ==> IsTopRanking(EndsFor(history[..cachedRounds], start), 5, Counts(rows.value))
    {
      if startSlotMapping.None? {
        return None;
      }
      rows := Some(TopEndSlots(startSlotMapping.value, start));
      TopEndSlotsRanking(startSlotMapping.value, start);
      AdjacencyGet(history[..cachedRounds], start);
    }

    /**
     * `reset_data`: declined, nothing changes. Confirmed, the in-memory state
     * is cleared first (the selection is kept), whatever happens on disk;
     * then, if the data file exists, an old backup is removed and the data
     * file renamed to the backup (either step may fail, ending the attempt),
     * and finally an empty data file is created, truncating the data file
     * if the backup failed.
     */
    method ResetData(confirmed: bool, removeOk: bool, renameOk: bool, createOk: bool)
      requires Valid()
      modifies this
      ensures Valid()
      ensures !confirmed ==> unchanged(this)
      ensures confirmed ==>
        && history == [] && totalRounds == 0 && startCounter == map[] && endCounter == map[]
        && startSlotMapping == None
        && selectedStart == old(selectedStart) && selectedEnd == old(selectedEnd)
      ensures confirmed ==>
        var cleared := old(dataFile).Some? && old(backupFile).Some? && removeOk;
        var archived := old(dataFile).Some? && (old(backupFile).None? || removeOk) && renameOk;
        && backupFile == (if archived then old(dataFile) else if cleared then None else old(backupFile))
        && dataFile == (if createOk then Some([]) else if archived then None else old(dataFile))
    {
      if !confirmed {
        return;
      }
      ClearMemory();
      BackUpAndRecreateFile(removeOk, renameOk, createOk);
    }

    /** The first part of a confirmed `reset_data`: empty counters, history and total; drop the cache. */
    method ClearMemory()
      requires Valid()
      modifies this`startCounter, this`endCounter, this`history, this`totalRounds,
        this`startSlotMapping, this`cachedRounds
      ensures Valid()
      ensures history == [] && totalRounds == 0 && startCounter == map[] && endCounter == map[]
      ensures startSlotMapping == None
    {
      startCounter, endCounter := map[], map[];
      history, totalRounds := [], 0;
      startSlotMapping, cachedRounds := None, 0;
    }

    /**
     * The file part of a confirmed `reset_data`: if the data file exists,
     * remove an old backup and rename the data file to the backup, stopping
     * at the first failure; then create an empty data file.
     */
    method BackUpAndRecreateFile(removeOk: bool, renameOk: bool, createOk: bool)
      modifies this`dataFile, this`backupFile
      ensures
        var cleared := old(dataFile).Some? && old(backupFile).Some? && removeOk;
        var archived := old(dataFile).Some? && (old(backupFile).None? || removeOk) && renameOk;
        && backupFile == (if archived then old(dataFile) else if cleared then None else old(backupFile))
        && dataFile == (if createOk then Some([]) else if archived then None else old(dataFile))
    {
      if dataFile.Some? {
        var backupFailed := false;
        if backupFile.Some? {
          if removeOk {
            backupFile := None;
          } else {
            backupFailed := true;
          }
        }
        if !backupFailed && renameOk {
          backupFile, dataFile := dataFile, None;
        }
      }
      if createOk {
        dataFile := Some([]);
      }
    }

    /**
     * The counting invariant: the total, the history's length and the sums
     * of both counters agree, and each counter entry is the number of rounds
     * with that start (or end).
     */
    lemma CountingInvariant()
      requires Valid()
      ensures totalRounds == |history|
      ensures SumOver(startCounter, FirstSlot, EndSlot) == totalRounds
      ensures SumOver(endCounter, FirstSlot, EndSlot) == totalRounds
      ensures forall s :: Get(startCounter, s, 0) == Occurrences(Starts(history), s)
      ensures forall e :: Get(endCounter, e, 0) == Occurrences(Ends(history), e)
    {
      SidesInRange(history);
      TallySum(Starts(history), FirstSlot, EndSlot);
      TallySum(Ends(history), FirstSlot, EndSlot);
      forall s
        ensures Get(startCounter, s, 0) == Occurrences(Starts(history), s)
        ensures Get(endCounter, s, 0) == Occurrences(Ends(history), s)
      {
        TallyKeys(Starts(history), s);
        TallyKeys(Ends(history), s);
      }
    }

    /** With at least one round, both distributions add up to exactly 100 percent. */
    lemma DistributionsSumTo100()
      requires Valid() && totalRounds > 0
      ensures SumReal(Percentages(startCounter, totalRounds), FirstSlot, EndSlot) == 100.0
      ensures SumReal(Percentages(endCounter, totalRounds), FirstSlot, EndSlot) == 100.0
    {
      CountingInvariant();
      PercentagesSumTo100(startCounter, totalRounds);
      PercentagesSumTo100(endCounter, totalRounds);
    }

    /**
     * The cache's lists have the lengths of the start counts of the rounds it
     * was built from, so their total length is that number of rounds; right
     * after a build they are the start counter itself. The cache is up to
     * date exactly when no round was registered since it was built.
     */
    lemma CacheInvariant()
      requires Valid() && startSlotMapping.Some?
      ensures Lengths(startSlotMapping.value) == Tally(Starts(history[..cachedRounds]))
      ensures SumOver(Lengths(startSlotMapping.value), FirstSlot, EndSlot) == cachedRounds
      ensures cachedRounds == |history| ==> Lengths(startSlotMapping.value) == startCounter
      ensures startSlotMapping.value == Adjacency(history) <==> cachedRounds == |history|
    {
      var h := history[..cachedRounds];
      AdjacencyLengths(h);
      SidesInRange(h);
      TallySum(Starts(h), FirstSlot, EndSlot);
      if cachedRounds == |history| {
        assert h == history;
      } else {
        AdjacencyLengths(history);
        SidesInRange(history);
        TallySum(Starts(history), FirstSlot, EndSlot);
      }
    }

  }

}
