# Slot tracker bookkeeping, in Dafny

`CONTER/improved_tracker.py` is a desktop tool that records rounds of a
slot game. A round is the pair (start slot, end slot). There are eight
slots, with ids 1 to 8 (Melon … Chicken). The tool does four things with
rounds:

- it keeps per-slot counters of starts and ends, the list of all rounds
  and their total;
- it appends each new round to a CSV data file and reads that file back
  at start-up;
- it shows each slot's share of starts and ends;
- for a chosen start slot, it ranks the five most frequent end slots.

This project models the bookkeeping engine inside the `SlotTracker`
class, without its widgets:

- `Registry` holds the slot registry and the round record.
- `Counting` holds the `defaultdict(int)` / `Counter` tallies and their sums.
- `History` holds the projections of the history and the start-to-ends adjacency that `preprocess_data` builds.
- `EventLog` holds the data file as a sequence of tokenised rows, the load filter and the appended row.
- `Statistics` holds `calculate_percentages` over exact reals.
- `Ranking` holds `Counter.most_common(n)` and the top-5 rows with their percentages.
- `Tracker` holds the `SlotTracker` class. Its fields are the tracker's own state: both counters, the history, the total, the pending selection, the analysis cache, the data file and the backup file. Its methods are `load_data`, `save_round`, `handle_selection`, `register_round`, `preprocess_data`, the ranking step of `show_top_5_end_slots` and `reset_data`.

A ghost `Valid()` predicate holds the invariant these methods keep:

- the counters and the total are those of the history;
- a pending selection is a registered slot;
- the cache, when present, is the adjacency of a prefix of the history.

### How the model reads the file and I/O

- A CSV row is a sequence of fields. Each field is `Some(n)` when `int()` accepts it and `None` when it raises `ValueError`.
- A missing file is `None`.
- Each I/O outcome is a boolean parameter:
  - opening the file to read (`readOk`);
  - appending (`writeOk`);
  - removing the old backup (`removeOk`);
  - renaming (`renameOk`);
  - creating the empty file (`createOk`).
- The user's answer to the reset confirmation is the `confirmed` parameter.

### Behaviour the model follows from the code

- `register_round` updates memory before it saves. A failed save is only reported, so memory and file can disagree.
- A confirmed `reset_data` clears memory whatever happens on disk. If removing the old backup or the rename fails, the data file is still opened with mode `'w'`, which truncates it.
- The pending selection survives a reset.
- The analysis cache is built only when it is absent. `register_round` and `load_data` never update it, so it can be stale. The model records how many rounds the cache was built from in a ghost field, `cachedRounds`, and proves that the cache is current exactly when no round has been registered since it was built.
- `most_common` breaks ties in first-appearance order (a stable sort over the counter's insertion order), not by ascending id.
- With at least one round, `calculate_percentages` lists only the slots counted so far. Only with zero rounds does it list every id 1..8.

## Model

| member | source | states |
|---|---|---|
| Registry.SlotsAreRange | CONTER/improved_tracker.py:48-57 | An id is registered exactly when 1 <= id < 9, the range the zero-total distribution and the buttons use |
| Counting.Tally | CONTER/improved_tracker.py:89-90 | The counter that `+= 1` on a `defaultdict(int)` builds from a sequence of ids, one increment per element in order; it is tied to occurrence counts by Counting.TallyKeys |
| Counting.TallyKeys | CONTER/improved_tracker.py:89-90 | The tally of a sequence has a key exactly for the values that occur in it, and each entry equals the number of occurrences |
| Counting.TallySum | CONTER/improved_tracker.py:89-92 | The entries of a tally of ids within [lo, hi) add up over that range to the sequence's length |
| History.Adjacency | CONTER/improved_tracker.py:359-362 | `start_slot_mapping` as `preprocess_data` builds it: for each round in order, its end is appended to the list of its start (`defaultdict(list)`); its meaning is stated by History.AdjacencyGet |
| History.SidesInRange | CONTER/improved_tracker.py:91 | Every start and end in a history of registered rounds is an id in 1..8 |
| History.EndsForLength | CONTER/improved_tracker.py:361-362 | The list of ends recorded for a start has as many entries as the rounds with that start |
| History.AdjacencyGet | CONTER/improved_tracker.py:359-362 | The mapping built from a history has a key exactly for the starts that occur in it, and lists for each start its ends in chronological order |
| History.AdjacencyLengths | CONTER/improved_tracker.py:359-362 | The lengths of the mapping's lists are the start counter of the same history |
| History.AdjacencyStale | CONTER/improved_tracker.py:357-362 | Adding a round always changes the mapping, so a cache kept across a register is out of date |
| EventLog.ParseRow | CONTER/improved_tracker.py:86-90 | The round one CSV row gives on load: none when the row has fewer than two fields (`IndexError`) or a field `int()` rejects (`ValueError`), none when either id is unregistered, else the pair of its first two fields |
| EventLog.LoadedRounds | CONTER/improved_tracker.py:84-95 | The rounds `load_data` keeps from the rows of the file: the parsed round of each row that has one, in file order; characterised by EventLog.LoadedRoundsAppend, LoadedRow and LoadedRoundsExactly |
| EventLog.SavedRow | CONTER/improved_tracker.py:110 | The row `writer.writerow([start, end])` writes: two integer fields |
| EventLog.LoadedRoundsAppend | CONTER/improved_tracker.py:85-95 | Loading works row by row: the rounds of two concatenated files are those of the first followed by those of the second, so a bad row never stops the rest |
| EventLog.LoadedRow | CONTER/improved_tracker.py:86-95 | A single row yields its round exactly when it has two integer fields that are both registered ids; otherwise it yields nothing |
| EventLog.LoadedRoundsExactly | CONTER/improved_tracker.py:84-95 | A round is loaded if and only if some row of the file parses to it |
| EventLog.LoadedRoundsValid | CONTER/improved_tracker.py:91 | Every loaded round names registered slots |
| EventLog.SaveThenLoad | CONTER/improved_tracker.py:107-110 | Round trip: loading a file after `save_round` appended a registered round gives the earlier rounds followed by that round |
| Statistics.Percentages | CONTER/improved_tracker.py:114-126 | `calculate_percentages`: every id 1..8 at 0.0 with zero rounds, else each counter key at count / total * 100 over exact reals; its properties are the Statistics lemmas below |
| Statistics.PercentagesWithoutRounds | CONTER/improved_tracker.py:124-125 | With zero rounds the distribution has exactly the keys 1..8, each at 0 |
| Statistics.PercentagesWithRounds | CONTER/improved_tracker.py:126 | With rounds, a slot has a percentage exactly when it is a key of the counter; that percentage times the total is 100 times its count, and it lies in 0..100 when the count is within the total |
| Statistics.PercentagesSumTo100 | CONTER/improved_tracker.py:114-126 | When the counts over ids 1..8 add up to the total, the percentages over 1..8 add up to exactly 100 |
| Ranking.CounterItems | CONTER/improved_tracker.py:379 | The `(slot, count)` items of `Counter(end_slots)` in key order: each distinct value in first-appearance order with its number of occurrences |
| Ranking.SortByCount | CONTER/improved_tracker.py:380 | The stable sort of those items by count descending that `most_common` performs (insertion sort, ties keep their order); proved a permutation and ranked by Ranking.SortByCountRanked |
| Ranking.MostCommon | CONTER/improved_tracker.py:380 | `most_common(n)`: the first min(n, len) items of the sorted counter; proved a top-n ranking by Ranking.MostCommonIsTopRanking |
| Ranking.FirstIndex | CONTER/improved_tracker.py:379 | The position of the first occurrence of a value: it holds that value and no earlier position does |
| Ranking.CounterKeys | CONTER/improved_tracker.py:379 | The keys of `Counter(xs)`: exactly the values of xs, ordered by their first appearance |
| Ranking.SortByCountRanked | CONTER/improved_tracker.py:380 | The stable sort by count descending is a permutation, and ranks entries by higher count, with ties in first-appearance order |
| Ranking.MostCommonIsTopRanking | CONTER/improved_tracker.py:379-380 | `most_common(n)` meets the reference definition of a top-n ranking. It has at most n entries, with distinct slots, each with its true positive count. Entries are ordered by count, then first appearance. It is empty exactly when xs is empty or n is 0. Every omitted value means the list is full and ranks below every entry |
| Ranking.MostCommonEntry | CONTER/improved_tracker.py:380 | Each entry of `most_common(n)` is a value of xs with its number of occurrences, which is positive |
| Ranking.TopEndSlots | CONTER/improved_tracker.py:378-407 | The top-5 rows for a start: `most_common(5)` of `mapping.get(start, [])`, each with the percentage count / len(end_slots) * 100 (0 when the list is empty); stated by Ranking.TopEndSlotsRanking and TopEndSlotsShares |
| Ranking.TopEndSlotsRanking | CONTER/improved_tracker.py:378-380 | The top-5 rows for a start are a top-5 ranking of the ends the cache lists for it (`get(start, [])`) |
| Ranking.TopEndSlotsShares | CONTER/improved_tracker.py:407 | Each row's percentage is its count divided by the number of ends listed for the start, times 100, and lies in (0, 100] |
| Ranking.PercentagesBounded | CONTER/improved_tracker.py:407 | The share of a positive count within its total lies in (0, 100] |
| Tracker.AggregatedSnoc | CONTER/improved_tracker.py:168-171 | Bumping both counters, appending the round and adding one to the total keeps the aggregates those of the longer history |
| Tracker.SlotTracker.Valid | CONTER/improved_tracker.py:60-65 | The standing invariant of the state: total == number of rounds, every round names registered slots, each counter is the tally of its side of the history, a pending selection is a registered slot, and the cache, when present, is the mapping of a prefix of the history |
| Tracker.SlotTracker.constructor | CONTER/improved_tracker.py:59-68 | A new tracker starts empty, with no selection and no cache, then loads the file: it holds the loaded rounds of the file, or none when the file is missing or cannot be read |
| Tracker.SlotTracker.Record | CONTER/improved_tracker.py:89-92 | One round counted: history gets the round at its end, the total and the two matching counter entries go up by one, all else unchanged, invariant kept |
| Tracker.SlotTracker.LoadData | CONTER/improved_tracker.py:76-97 | The history gains exactly the loaded rounds of the file, in file order. A missing or unreadable file adds nothing. Selection, cache and files are unchanged |
| Tracker.SlotTracker.LoadRows | CONTER/improved_tracker.py:84-95 | The loop over the rows appends exactly the filtered rounds and keeps the invariant |
| Tracker.SlotTracker.LoadRow | CONTER/improved_tracker.py:86-95 | One row adds its round when it parses, and nothing otherwise |
| Tracker.SlotTracker.SaveRound | CONTER/improved_tracker.py:99-112 | A successful write appends the row [start, end] to the file, creating it if missing; a failed write leaves the file as it was |
| Tracker.SlotTracker.HandleSelection | CONTER/improved_tracker.py:143-156 | "start" or "end" replaces that pending choice, overwriting an earlier one; any other type changes nothing |
| Tracker.SlotTracker.RegisterRound | CONTER/improved_tracker.py:158-184 | With a selection missing, nothing changes. Otherwise: the round is appended, the total and the two counter entries go up by one, the row is appended to the file when the write succeeds, and both selections are cleared. The cache and the backup are untouched |
| Tracker.SlotTracker.PreprocessData | CONTER/improved_tracker.py:357-362 | When the cache is absent it becomes the start-to-ends mapping of the whole history; when present, nothing changes |
| Tracker.SlotTracker.TopFiveEndSlots | CONTER/improved_tracker.py:378-380 | With no cache there is no result. Otherwise the rows are a top-5 ranking of the ends that the cached rounds recorded for the start |
| Tracker.SlotTracker.ResetData | CONTER/improved_tracker.py:537-568 | Declined, nothing changes. Confirmed, counters, history, total and cache are cleared whatever the disk outcome, and the selection is kept. The backup then holds the old data file if the rename succeeded. The data file is empty if its creation succeeded |
| Tracker.SlotTracker.ClearMemory | CONTER/improved_tracker.py:541-546 | Counters empty, history empty, total zero, cache absent, invariant kept |
| Tracker.SlotTracker.BackUpAndRecreateFile | CONTER/improved_tracker.py:549-564 | If the data file exists, an old backup is removed and the data file renamed to the backup, stopping at the first failure. Then an empty data file is created when creation succeeds |
| Tracker.SlotTracker.CountingInvariant | CONTER/improved_tracker.py:168-171 | total == number of rounds == sum of the start counter == sum of the end counter. Each counter entry is the number of rounds with that start (or end) |
| Tracker.SlotTracker.DistributionsSumTo100 | CONTER/improved_tracker.py:114-126 | With at least one round, both the start and the end distribution add up to exactly 100 |
| Tracker.SlotTracker.CacheInvariant | CONTER/improved_tracker.py:357-362 | The cache's list lengths are the start counts of the rounds it was built from, and they add up to that number of rounds. Right after a build they equal the start counter. The cache equals the mapping of the current history exactly when no round was added since |

## Left out

- The tkinter interface is not modelled: windows, buttons, labels, message boxes, corner decorations, hover effects and the colour gradient. It is presentation. The buttons only offer ids 1..8, so `HandleSelection` and `TopFiveEndSlots` take a registered slot.
- `create_chart` (matplotlib drawing) is not modelled; it is a foreign library.
- `update_report` and `export_data` are not modelled; they format floats and write a report through a file dialog.
- Real file I/O is not modelled: `open`, `csv.reader`/`csv.writer`, `os.path.exists`, `os.remove` and `os.rename`. The files are values and each outcome is a boolean parameter.
- A read error part-way through the file is not modelled: `load_data` either reads the whole file (`readOk`) or nothing. CSV quoting and decoding errors are not modelled.
- `int()` lexical rules (whitespace, signs, underscores) are not modelled: each field arrives already parsed as `Some(n)` or `None`.
- Floating point is not modelled: percentages are exact reals, without rounding.
- The `print` of a skipped row and the message boxes are output only, so they are not modelled.
- `show_top_3_end_slots` only forwards to `show_top_5_end_slots`, so it is not modelled separately.
- Tracker.SlotTracker.TopFiveEndSlots: when the cache is absent, the source's `self.start_slot_mapping` lookup raises `AttributeError`; the model returns `None` instead. This happens when a confirmed reset deletes the cache while the (non-modal) analysis window is still open and a start slot is then clicked, since the window builds the cache only once, when it opens.
- Tracker.SlotTracker.SaveRound / EventLog.SaveThenLoad: the file is modelled as a sequence of rows, while the source appends text. The round trip assumes that every existing row ends in a line terminator, as all rows `csv.writer` writes and the empty file a reset creates do. A hand-edited file whose last line lacks one (ending in `3,4`) would have the saved row glued onto that line (`3,41,2`), and on the next load both that round and the saved one are lost.
