# Flask tracker ledger — a Dafny model

The flask tracker keeps track of flask pairs (sample containers) that a lab
ships out to field stations and gets back again. Each configured station has
a ledger: an ordered table with one row per flask pair that is out there.
Each row holds `low`, `high`, `outdate`, `notes` and `returned`. The ledger
set is the `dalist` class in `flasktracker.py`. When it is built, it also
keeps a snapshot of the ledgers it loaded (`original`).

This project models the in-memory part of that class:

- `Ledger` (ledger.dfy) has the row and table types. It also has the pure
  table operations:
  - `FirstIndex` is `list.index`.
  - `NewEntry` is the row that `new_da(name, [low], [date], [high], notes=[notes])` builds for a shipment.
  - `HasLow` is membership in the low column.
  - `WithoutLow` is `where(low != x, drop=True)`.
  - The rest are lemmas about these operations.
- `Report` (report.dfy) has Python's `str` for integers and `pprocess` on an
  integer count. It also has the flag string that `overview` builds for each
  station, and a lemma for each flag saying when it appears.
- `FlaskTracker` (flasktracker.dfy) has the class `DaList`:
  - `locs` and `original` are `const`, so nothing can change them after construction.
  - `ledgers` is the live `da_list`. `Ship` and `Receive` replace one element of it.
  - `Ship` keeps `ship`'s loop over the snapshot's low column, with its early return.
  - `SearchAllStations` and `Overview` only read.
  - `ShipThenReceive`, `ShipTwice` and `ReceiveThenShipSnapshotId` are client
    methods. Each one states what a sequence of calls does.
  - `OneStationSession` states, through the class contracts, what a
    one-station session does: two shipments of the same id, then two receives.

Flask ids are strings. `str(low)` applied to a string returns the same
string. A caller with an integer id passes `Report.Str(n)`.

Three behaviours of the program are easy to miss:

- `ship` checks only the load-time snapshot (flasktracker.py:40, :105). So an
  id the snapshot lacks is accepted twice, and live low ids need not be unique.
  `ShipTwice` and `OneStationSession` show this.
- `receive` drops every row that has the id, not just one (flasktracker.py:128-133).
- `pprocess(0)` gives `"0"`, not `"00"`: the padding applies only when
  `0 < N < 10` (flasktracker.py:27).

## Model

| member | source | states |
|---|---|---|
| Ledger.FirstIndex | flasktracker.py:52 | the index returned holds the name, and no earlier position does (first occurrence) |
| FlaskTracker.DaList.Index | flasktracker.py:51-53 | the station's position is the first one in `locs` carrying that name |
| FlaskTracker.DaList.constructor | flasktracker.py:36-40 | live ledgers and the snapshot are both exactly the loaded ledgers, in station order |
| FlaskTracker.DaList.Ship | flasktracker.py:99-116 | refused (all ledgers unchanged) iff the low id is in the station's snapshot ledger; otherwise only that station's ledger changes, by one appended row with the given low, high, date, notes and returned = "False"; the snapshot is never touched |
| FlaskTracker.DaList.Receive | flasktracker.py:118-135 | refused (all ledgers unchanged) iff no live row of the station has the low id; otherwise only that station's ledger changes, to its rows without that id |
| FlaskTracker.DaList.SearchAllStations | flasktracker.py:160-166 | returns exactly the stations whose live ledger holds the id, in increasing (configured) order, changing nothing |
| FlaskTracker.DaList.Overview | flasktracker.py:168-203 | one line per station in order: padded pair count, first row as oldest and last row as newest (or " n/a " when empty), and the station's flag string |
| FlaskTracker.Summarise | flasktracker.py:174-196 | the line built for one table shows its padded count, its first row as oldest, its last row as newest (" n/a " for all four when empty) and its flag string |
| FlaskTracker.DaList.ShipThenReceive | flasktracker.py:99-135 | shipping an id absent from both snapshot and live ledger and then receiving it succeeds twice and restores every ledger exactly |
| FlaskTracker.DaList.ShipTwice | flasktracker.py:105-114 | two shipments of an id absent from the snapshot are both accepted and leave two rows with that id |
| FlaskTracker.DaList.ReceiveThenShipSnapshotId | flasktracker.py:105-133 | an id in the snapshot is refused by ship even after it has been received and is no longer live; the ledgers end as the receive alone left them (that station filtered if the id was live, all others unchanged) |
| Ledger.NewEntry | flasktracker.py:83-97 | the row built for a shipment stores the given low, high, date and notes, with returned = "False" |
| Ledger.LowColumn | flasktracker.py:164 | the low column has one entry per row, and an id is in it exactly when some row carries it as its low id (`HasLow`) |
| Ledger.WithoutLow | flasktracker.py:128-133 | the kept rows are exactly the rows whose low differs from the id; the table shrinks iff the id was present |
| Ledger.WithoutLowConcat | flasktracker.py:128-133 | filtering distributes over concatenation, so relative order of the kept rows is preserved |
| Ledger.WithoutAbsentLow | flasktracker.py:122-133 | filtering an id no row carries leaves the table unchanged |
| Ledger.WithoutLowIdempotent | flasktracker.py:128-133 | filtering the same id twice equals filtering once |
| Ledger.ReceiveUndoesShip | flasktracker.py:113-133 | appending a row with a fresh id and then filtering that id out gives back the original table |
| Report.NatToDecimal | flasktracker.py:30 | the rendering is a non-empty digit string without a leading zero (except for 0), one digit iff below 10 |
| Report.DecimalRoundTrip | flasktracker.py:30 | reading back the decimal rendering of n gives n |
| Report.Str | flasktracker.py:28-30 | `str` of an integer denotes that integer: digits for non-negative values, a '-' and the digits of the magnitude otherwise |
| Report.PProcess | flasktracker.py:25-31 | the result is `str(N)` or `'0' + str(N)`, the prefix being added iff 0 < N < 10; the value shown is N; counts 1..99 print as two characters; 0 prints as "0" |
| Report.StationFlag | flasktracker.py:185-196 | the flag begins with ' ' iff the station has pairs out |
| Report.FlagNoFlasks | flasktracker.py:186-192 | "no flasks, " appears iff the count is 0, and then it opens the flag |
| Report.FlagUnder3 | flasktracker.py:193-194 | "under 3, " appears iff fewer than three pairs are out |
| Report.FlagOverdue | flasktracker.py:195-196 | "N < weeks, " appears iff the count is below `weeks`, and then it closes the flag |
| Report.OverdueInDays | flasktracker.py:180-196 | with `weeks = days / 7.0` for a whole number of days, the overdue flag appears iff 7 * N < days |

## Left out

- File I/O: `load`, `save` and `external_save` are not modelled. Neither are
  the dated and "current" file paths, `astype(str)`, or the renumbering of
  `itime` before writing. The constructor takes the loaded ledgers as its
  argument. A missing station file (which makes loading fail) is not modelled.
- The `tag` constructor argument is left out. It only picks which files to load.
- Console I/O: `view`, `ask_ship`, `ask_receive` and their `"abort"` handling
  are left out. So are the save prompt that ends `ship` and `receive`, and all
  printing. The confirmation and prompts are interactive. In memory, a save
  changes only the `itime` labels of every live table (flasktracker.py:71),
  including the tables the snapshot still shares; those labels are left out
  above.
- Wall-clock time: `time_tag` and the `datetime.now()`/`strptime` difference in
  `overview` are left out. `Overview` takes, for each station, the value the
  variable `weeks` holds when that station's flag is tested. In the program,
  `strptime` (flasktracker.py:181) raises `ValueError` when a station's newest
  `outdate` is not a `%Y-%m-%d` date, and `ship` accepts any date text, so
  `overview` can fail there; the model's `Overview` cannot show that failure.
- FlaskTracker.DaList.Overview: the stale `weeks` of an empty station is not modelled.
  In the source, an empty station sets `days = 999` but leaves `weeks` as the
  previous station left it. If the first station is empty, `weeks` is unbound
  and the report fails there. The model takes `weeks` as an input instead.
- FlaskTracker.DaList.Overview: `pprocess(weeks)` is not modelled. It rounds a
  float to one decimal, so the lines carry no printed week value. The `verbose`
  switch only chooses which fields to print, so every line carries all of them.
- FlaskTracker.DaList.Overview: the station name comes from `locs`, not from
  the loaded table's own name. The two are equal whenever the files are named
  after their stations.
- Report.PProcess: `round(N, 1)` on floats is not modelled. It is the identity
  on integers, and only the integer path is modelled.
- FlaskTracker.DaList.Receive: the source accepts a `notes` argument and never
  uses it, so the model has no such parameter.
- numpy/xarray details are left out: dtype coercion, the NaN filling done by
  `where`, and the `itime` coordinate values. The `None` defaults of `new_da`
  are left out too, since the `ship` path always passes one-element lists.
  `high` and `notes` are stored as given.
- A station name that is not in `locs` makes `list.index` raise an exception.
  The model has `name in locs` as a precondition instead.
- FlaskTracker.DaList.Ship: the defaults `high=None` and `notes=None` of
  `ship` are not modelled. A call that omits them stores `None` in the new
  row; the model's fields are always text, so the caller supplies them.
- Report.OverdueInDays: the comparison is over exact reals, while the source
  compares an integer with the float `days/7.0`. The two agree for every day
  count small enough to be a real date difference.
