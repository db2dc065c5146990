# Kronos scheduling engine in Dafny

Kronos is a small task daemon. It loads job definitions, works out when
each one should first run, and then loops forever. Each turn of the loop
runs the jobs that are due and keeps recurring jobs on their schedule.
This project models the daemon's scheduling engine and proves properties
of the model. There are five modules:

- `Wrappers` (`wrappers.dfy`): the `Option` type.
- `Tasks` (`tasks.dfy`): the records of `src/task.rs`.
  - A `Job` is exactly two strings, a description and a command.
  - A `Trigger` has two independently optional text fields, `onCalendar`
    and `every`, so all four combinations can be represented.
  - A `Task` pairs one job with one trigger.
- `Duration` (`duration.dfy`): `parse_duration`.
  - The method `ParseDuration` is the source's loop over characters, with
    the running total and the digit buffer as loop variables.
  - It is proved equal to `DurationSeconds`, a fold of the one-step rule
    `Step` over the string.
  - `Segment`/`Render`/`SegmentsTotal` give an independent reference
    meaning for "1h30m10s"-shaped strings.
  - `ParseDoesNotPanic` states, over unbounded integers, when the Rust
    code would not panic. Panics come from `i64` overflow of `num * 3600`
    or of the running sum (when overflow checks are on), or from a total
    above the range of chrono's `Duration::seconds`.
- `Loader` (`loader.dfy`): the scheduling pass of `load_and_schedule_tasks`.
  - It runs over already-deserialised records, one `Option<Task>` per
    directory entry. `None` stands for an entry the source skips before
    it has a task.
  - The clock reading `now` is a parameter.
  - chrono's calendar parse plus the Local-to-UTC conversion is the
    parameter `calendarToUtc: string -> Option<int>`. `None` means the text
    does not parse, or the local time is ambiguous or does not exist.
  - The method `LoadAndScheduleTasks` is the source's `for` loop with
    `continue`. It is proved equal to the fold `Loaded`.
- `Daemon` (`daemon.dfy`): one turn of the loop in `main`.
  - The class `Scheduler` holds the `scheduled_jobs` vector as a `seq`
    field.
  - `SortJobs` is `sort_by_key`, a stable sort specified by
    `SortByNextRun`.
  - `DrainDue` is the `while let` loop. It repeats `remove(0)`, records
    the job for dispatch and `push`es a rescheduled copy. It is proved
    equal to the function `Drain`, which terminates by the `Backlog`
    measure.
  - `RunCycle` runs sort, drain and the sleep choice `SleepSeconds`. It
    returns the dispatched jobs and the sleep length instead of spawning
    threads and sleeping.

All times are whole seconds, as `int`. The source truncates `now` to
seconds, durations are whole seconds, and the calendar format has second
precision.

Four behaviours of the code are easy to miss:

- **Trigger shape.** A trigger is two independent options, not a choice of
  one. When both are set, the calendar decides the first run, and `every`
  still makes the entry recur after it fires.
- **Buffer clearing.** The digit buffer is cleared after a non-digit only
  when it parses as `i64`. A digit run above `i64::MAX` is never cleared,
  so every later segment is dropped.
- **Sleep with an empty vector.** `min(3600, 60)` gives 60 seconds, not
  an hour.
- **Order after the drain.** Rescheduled entries are appended with no
  re-sort, and the sleep is taken from the first entry, which need not be
  the earliest.

## Model

| member | source | states |
|---|---|---|
| `Duration.Step` | src/lib.rs:133-143 | One character never lowers the total. A digit is appended to the buffer and the total is unchanged. A non-digit leaves the state unchanged exactly when the buffer does not parse as `i64`; otherwise it clears the buffer, and a letter other than 'h', 'm', 's' adds nothing |
| `Duration.ParseDuration` | src/lib.rs:128-151 | The loop over characters returns exactly `DurationSeconds(s)`, the fold of the step rule: a digit is appended to the buffer; a non-digit whose buffer parses as `i64` adds n·3600 for 'h', n·60 for 'm', n for 's' and 0 otherwise, then clears the buffer; any other non-digit changes nothing; `Some` only for a positive total |
| `Duration.DurationIsPositiveTotal` | src/lib.rs:146-150 | The result is `Some` exactly when the scanned total is positive, its value is that total, and `None` means the total is zero (the total never goes negative) |
| `Duration.TotalNeverDecreases` | src/lib.rs:135-143 | Scanning more characters never lowers the running total |
| `Duration.ScanConcat` | src/lib.rs:132-144 | Scanning `a + b` is scanning `b` from the state left by `a` |
| `Duration.DigitsOnlyBuffer` | src/lib.rs:133-134 | A run of digits only extends the buffer and never touches the total |
| `Duration.TrailingDigitsIgnored` | src/lib.rs:132-150 | Digits at the end with no unit letter after them change neither the total nor the result |
| `Duration.OverlongStaysStuck` | src/lib.rs:135-143 | A non-empty buffer above `i64::MAX` stays above it whatever follows, and the total stays frozen |
| `Duration.OverlongRunDropsTheRest` | src/lib.rs:135-143 | Once an over-long digit run is pending, every later segment is dropped: the total of `a + b` equals the total of `a` |
| `Duration.ScanSegments` | src/lib.rs:132-144 | From an empty buffer, scanning well-formed `<digits><unit>` segments adds exactly the sum of their contributions and leaves the buffer empty |
| `Duration.SegmentsDuration` | src/lib.rs:128-151 | For any sequence of well-formed segments (any units, any order, digits optional), the result is the sum of each segment's number times its unit's seconds when positive, else `None` |
| `Duration.ShortExamples` | src/main.rs:206-229 | "1h" gives 3600 s; "", "abc" and "5x" give `None` |
| `Duration.ZeroCountsGiveNone` | src/lib.rs:146-150 | "0h0m0s" gives `None`: zero counts add nothing and the total must be positive |
| `Duration.NinetyMinutes` | src/main.rs:206-229 | "90m" gives 5400 s |
| `Duration.HourMinutesSeconds` | src/main.rs:206-229 | "1h30m10s" gives 5410 s |
| `Duration.DecimalValueConcat` | src/lib.rs:135 | The number denoted by digits `a + b` is `a`'s number times 10^|b| plus `b`'s number |
| `Duration.ShortInputsDoNotPanic` | fuzz/fuzz_targets/fuzz_parse_duration.rs:7-15 | Every string of at most 12 characters meets `ParseDoesNotPanic`: no `i64` overflow of `num * unit` or of the running sum, and a positive total within chrono's `Duration::seconds` range (at most `i64::MAX / 1000`) |
| `Duration.HugeHourCountPanics` | src/lib.rs:137-147 | "2562047788016h" scans to 2562047788016·3600 seconds, which fits in `i64` but exceeds chrono's range, so `ParseDoesNotPanic` fails: the no-panic bound is not vacuous: this 14-character string breaks it, while no string of at most 12 characters can |
| `Loader.LoadAndScheduleTasks` | src/lib.rs:23-99 | The loop with `continue` returns exactly `Loaded(records, now, calendarToUtc)`: one entry per admitted record, in input order |
| `Loader.NextRunAt` | src/lib.rs:63-79 | With a calendar field the run time is the calendar conversion, whatever `every` says. Otherwise `every` gives a time exactly when it parses, and that time is `now` plus the parsed seconds, strictly after `now`. With neither field there is no time |
| `Loader.Admit` | src/lib.rs:81-92 | An absent record gives no entry. An entry copies the task's job and trigger, carries the `NextRunAt` time, and is never before `now` (strictly after it without a calendar field). Conversely a record with a time is admitted unless that time comes from the calendar and is before `now` |
| `Loader.AdmitTask` | src/lib.rs:63-92 | With a calendar field only the calendar is used: a bad calendar yields no entry even when `every` is valid, a time strictly before `now` is rejected and a time equal to `now` is kept. Without one, `every` gives `now + d`, is never rejected and lies strictly after `now`; neither field gives nothing. Job and trigger are copied unchanged |
| `Loader.LoadedConcat` | src/lib.rs:35-98 | The pass splits over any cut of the input, so a skipped record never aborts the records after it |
| `Loader.LoadedSingle` | src/lib.rs:81-95 | One record contributes its admitted entry, or nothing |
| `Loader.LoadedMembers` | src/lib.rs:81-95 | An entry is in the output if and only if some record admits it |
| `Loader.LoadedLength` | src/lib.rs:35-98 | There is at most one entry per record |
| `Loader.LoadedNotInPast` | src/lib.rs:75-86 | Every loaded entry runs no earlier than `now`; one without a calendar field recurs (`every` set) and runs strictly after `now` |
| `Daemon.InsertByNextRunPermutes` | src/main.rs:46 | Inserting an entry adds exactly that entry to the multiset |
| `Daemon.InsertByNextRunSorted` | src/main.rs:46 | Inserting into a sorted vector keeps it sorted by `nextRunAt` |
| `Daemon.InsertByNextRunStable` | src/main.rs:46 | Insertion places the entry ahead of the entries that share its run time and leaves their order alone |
| `Daemon.SortByNextRunCorrect` | src/main.rs:46 | After the sort, `nextRunAt` is non-decreasing, the vector is a permutation of the input, and entries with equal run times keep their input order (stable sort) |
| `Daemon.Reschedule` | src/main.rs:66-75 | A fired entry is pushed back (one copy) exactly when `every` is set and parses. The copy keeps job and trigger and runs at the old `nextRunAt` plus the parsed seconds, strictly later |
| `Daemon.BacklogConcat` | src/main.rs:52-80 | The drain's termination measure adds up over concatenation |
| `Daemon.DrainStepShrinks` | src/main.rs:52-80 | Removing a due head and pushing back its rescheduled copy strictly lowers the backlog, because a parsed duration is at least one second; so the drain terminates |
| `Daemon.DrainStopsAtFuture` | src/main.rs:52-80 | After the drain the vector is empty or its first entry has `nextRunAt > now`, and every fired entry had `nextRunAt <= now` |
| `Daemon.DrainIsFifo` | src/main.rs:52-80 | The fired entries are exactly the first ones of the vector followed by the pushed-back copies, and what remains is the rest. So entries that are not popped are unchanged and keep their order, and each copy `e.nextRunAt + d` (anchored, independent of `now`) goes to the end with no re-sort. An entry whose `every` is absent or does not parse is never pushed back |
| `Daemon.DrainConservation` | src/main.rs:54-76 | The multiset before the drain plus the pushed-back copies equals the remaining entries plus the fired ones |
| `Daemon.LoneRecurringJobCatchesUp` | src/main.rs:52-80 | A lone recurring job k periods behind fires k times, at `nextRunAt + i·d` for i < k, where k is the least count with `nextRunAt + k·d > now`. It is then the only entry left, at `nextRunAt + k·d` |
| `Daemon.CalendarAndEveryRecurs` | src/main.rs:66-75 | An entry with both a calendar field and a valid `every` fires and is pushed back one period later |
| `Daemon.OneShotFiresOnce` | src/main.rs:54-76 | A due entry without a usable `every` fires and is not re-inserted; the drain continues on the rest |
| `Daemon.SleepSeconds` | src/main.rs:83-97 | The sleep is always between 1 and 60 seconds |
| `Daemon.SleepAfterDrain` | src/main.rs:83-97 | After the drain the sleep is 60 s for an empty vector, else `min(first.nextRunAt - now, 60)`: the one-second branch is unreachable |
| `Daemon.JobsOf` | src/main.rs:60-63 | The dispatched jobs are the fired entries' jobs, one per entry, in firing order |
| `Daemon.PushedBackCopyMayPrecedeHead` | src/main.rs:74-90 | A concrete drain leaves the vector unsorted (the pushed-back copy due at 15 sits behind a one-shot at 20). The sleep is taken from the first entry (10 s), not the earliest (5 s) |
| `Daemon.ThreeRecordScenario` | src/main.rs:37-80 | Three records, A every 2 s, B one second ahead and C an hour in the past, load to exactly A and B. A turn two seconds later fires B then A; B is gone and A remains at its anchored time `now + 4` |
| `Daemon.ThreeRecordLoad` | src/lib.rs:63-92 | The three records load to exactly A at `now + 2` and B at `now + 1`, in input order; C (calendar in the past) is skipped |
| `Daemon.ThreeRecordTurn` | src/main.rs:44-80 | Sorting [A at now+2, B at now+1] and draining at `now + 2` fires B then A and leaves only A at `now + 4` |
| `Daemon.Scheduler.constructor` | src/main.rs:37 | The vector starts as the loaded entries |
| `Daemon.Scheduler.SortJobs` | src/main.rs:46 | The vector becomes `SortByNextRun` of the old one: sorted and a permutation of it |
| `Daemon.Scheduler.DrainDue` | src/main.rs:52-80 | The loop leaves the vector and the fired entries exactly as `Drain(old vector, now)` gives them. Afterwards the first entry, if any, is in the future, and every fired entry was due |
| `Daemon.Scheduler.RunCycle` | src/main.rs:44-98 | One turn: the vector becomes the drain of the sorted vector and the dispatched jobs are the fired entries' jobs in firing order. The sleep is 60 s when the vector is empty, else `min(first.nextRunAt - now, 60)` with the first entry in the future |

## Left out

- src/alloc.rs (the libc allocator override) is not part of this model: it consists of foreign calls with a process-wide effect.
- `execute_command` and `thread::spawn` (src/main.rs:61-63, 180-203): dispatch is modelled as returning the job in `dispatched`. Shell invocation, output capture and the logging of results are external I/O.
- The `loop` and `thread::sleep`: `RunCycle` models one turn, and the sleep length is returned instead of slept. Real time and concurrency are not modelled.
- `Utc::now().with_nanosecond(0)`: `now` is a parameter in whole seconds.
- Directory creation and `exit(1)`, `fs::read_dir`, `read_to_string`, the `.toml` extension filter, and TOML deserialisation: these are filesystem I/O and a third-party parser. Their outcome is the input `seq<Option<Task>>`; a failing `read_dir` is an empty sequence.
- chrono's `NaiveDateTime::parse_from_str` with Local-to-UTC conversion depends on the OS time zone database. It is the parameter `calendarToUtc`, so the "YYYY-MM-DD HH:MM:SS" format is not checked by the model.
- Logging (`info!`, `warn!`, `error!`, `env_logger`) has no effect on the schedule.
- `to_std().unwrap_or(60 s)` in the sleep choice matters only for negative spans, which the `> 0` guard already excludes.
- Duration.ParseDuration: computes on unbounded integers, so it does not model a panic or `i64` wrap-around. `ParseDoesNotPanic` states when the source does not panic; `ShortInputsDoNotPanic` and `HugeHourCountPanics` bound that set from both sides.
- Loader.LoadAndScheduleTasks: does not model a panic when `now + d` overflows chrono's `DateTime` range; timestamps are unbounded integers.
- Daemon.Scheduler.DrainDue: does not model a panic when `next_run_at += duration` overflows chrono's `DateTime` range.
- The copies of `load_and_schedule_tasks` and `parse_duration` in src/main.rs (103-177, 206-229) are the same code as in src/lib.rs and are modelled once.
