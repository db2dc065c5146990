/**
 * The initial scheduling pass of `load_and_schedule_tasks`
 * (src/lib.rs:23-99, the same code at src/main.rs:103-177).
 *
 * Directory listing, file reading and TOML deserialisation are outside the
 * model: the loop runs over the records they produced, one `Option<Task>`
 * per directory entry, `None` standing for every entry the source skips
 * before it has a `Task` (unreadable entry, not a file, wrong extension,
 * read error, parse error). chrono's parse of the calendar text plus the
 * Local-to-UTC conversion is the parameter `calendarToUtc`; `now` is the
 * load-time clock reading in whole seconds.
 */
module Loader {
  import opened Wrappers
  import opened Tasks
  import Duration

  /** A job with its trigger and next run time in whole UTC seconds. */
  datatype ScheduledJob = ScheduledJob(job: Job, trigger: Trigger, nextRunAt: int)

  /**
   * The first run time of a trigger: the calendar field wins whenever it is
   * present (then `every` is never looked at); otherwise `every` gives
   * `now` plus its duration; a trigger with neither has none.
   */
  function NextRunAt(trigger: Trigger, now: int, calendarToUtc: string -> Option<int>): (r: Option<int>)
    ensures trigger.onCalendar.Some? ==> r == calendarToUtc(trigger.onCalendar.value)
    ensures trigger.onCalendar.None? && trigger.every.Some? ==>
              (r.Some? <==> Duration.DurationSeconds(trigger.every.value).Some?) &&
              (r.Some? ==> r.value > now && r.value - now == Duration.DurationSeconds(trigger.every.value).value)
    ensures trigger.onCalendar.None? && trigger.every.None? ==> r.None?
  {
    if trigger.onCalendar.Some? then calendarToUtc(trigger.onCalendar.value)
    else if trigger.every.Some? then
      match Duration.DurationSeconds(trigger.every.value)
      case Some(d) => Some(now + d)
      case None => None
    else None
  }

  /**
   * The entry one record contributes, or `None` when the loop skips it:
   * no task, no run time, or a calendar run time strictly before `now`.
   */
  function Admit(record: Option<Task>, now: int, calendarToUtc: string -> Option<int>): (r: Option<ScheduledJob>)
    ensures record.None? ==> r.None?
    ensures r.Some? ==> record.Some? && r.value.job == record.value.job && r.value.trigger == record.value.trigger
    ensures r.Some? ==> NextRunAt(record.value.trigger, now, calendarToUtc) == Some(r.value.nextRunAt)
    ensures r.Some? ==> r.value.nextRunAt >= now && (r.value.trigger.onCalendar.None? ==> r.value.nextRunAt > now)
    ensures (record.Some? && NextRunAt(record.value.trigger, now, calendarToUtc).Some? &&
             (record.value.trigger.onCalendar.None? || NextRunAt(record.value.trigger, now, calendarToUtc).value >= now))
            ==> r.Some?
  {
    match record
    case None => None
    case Some(task) =>
      match NextRunAt(task.trigger, now, calendarToUtc)
      case None => None
      case Some(runTime) =>
        if task.trigger.onCalendar.Some? && runTime < now then None
        else Some(ScheduledJob(task.job, task.trigger, runTime))
  }

  function AsSeq<T>(o: Option<T>): seq<T>
  {
    match o
    case None => []
    case Some(x) => [x]
  }

  /** The jobs vector after the loop has visited every record. */
  function Loaded(records: seq<Option<Task>>, now: int, calendarToUtc: string -> Option<int>): seq<ScheduledJob>
  {
    if records == [] then []
    else Loaded(records[..|records| - 1], now, calendarToUtc) + AsSeq(Admit(records[|records| - 1], now, calendarToUtc))
  }

  /** `load_and_schedule_tasks`, written as the source's loop with `continue`. */
  method LoadAndScheduleTasks(records: seq<Option<Task>>, now: int, calendarToUtc: string -> Option<int>)
    returns (jobs: seq<ScheduledJob>)
    ensures jobs == Loaded(records, now, calendarToUtc)
  {
    jobs := [];
    for i := 0 to |records|
      invariant jobs == Loaded(records[..i], now, calendarToUtc)
    {
      assert records[..i + 1][..i] == records[..i];
      if records[i].None? {
        continue;
      }
      var task := records[i].value;
      var nextRunAtUtc: Option<int>;
      if task.trigger.onCalendar.Some? {
        nextRunAtUtc := calendarToUtc(task.trigger.onCalendar.value);
      } else if task.trigger.every.Some? {
        var d := Duration.ParseDuration(task.trigger.every.value);
        nextRunAtUtc := if d.Some? then Some(now + d.value) else None;
      } else {
        nextRunAtUtc := None;
      }
      if nextRunAtUtc.Some? {
        var runTimeUtc := nextRunAtUtc.value;
        if task.trigger.onCalendar.Some? && runTimeUtc < now {
          continue;
        }
        jobs := jobs + [ScheduledJob(task.job, task.trigger, runTimeUtc)];
      }
    }
    assert records[..|records|] == records;
  }

  // ---------------------------------------------------------------------
  // One record

  /**
   * What one task contributes, stated case by case: a calendar trigger
   * uses only the calendar (a bad calendar yields nothing even when
   * `every` is valid) and keeps a run time equal to `now`; an
   * every-only trigger is never rejected and runs strictly after `now`;
   * a trigger with neither field yields nothing. Job and trigger are
   * copied unchanged.
   */
  lemma AdmitTask(task: Task, now: int, calendarToUtc: string -> Option<int>)
    ensures var r := Admit(Some(task), now, calendarToUtc);
      && (r.Some? ==> r.value.job == task.job && r.value.trigger == task.trigger)
      && (task.trigger.onCalendar.Some? ==>
            match calendarToUtc(task.trigger.onCalendar.value)
            case None => r.None?
            case Some(t) => r == if t < now then None else Some(ScheduledJob(task.job, task.trigger, t)))
      && (task.trigger.onCalendar.None? && task.trigger.every.Some? ==>
            match Duration.DurationSeconds(task.trigger.every.value)
            case None => r.None?
            case Some(d) => r == Some(ScheduledJob(task.job, task.trigger, now + d)) && now + d > now)
      && (task.trigger.onCalendar.None? && task.trigger.every.None? ==> r.None?)
  {
  }

  // ---------------------------------------------------------------------
  // The whole pass

  /** A skipped record never aborts the rest: the pass splits over any cut of the input. */
  lemma {:induction false} LoadedConcat(a: seq<Option<Task>>, b: seq<Option<Task>>, now: int, calendarToUtc: string -> Option<int>)
    ensures Loaded(a + b, now, calendarToUtc) == Loaded(a, now, calendarToUtc) + Loaded(b, now, calendarToUtc)
    decreases |b|
  {
    if b == [] {
      assert a + b == a;
    } else {
      var b' := b[..|b| - 1];
      assert (a + b)[..|a + b| - 1] == a + b';
      assert (a + b)[|a + b| - 1] == b[|b| - 1];
      LoadedConcat(a, b', now, calendarToUtc);
    }
  }

  lemma LoadedSingle(r: Option<Task>, now: int, calendarToUtc: string -> Option<int>)
    ensures Loaded([r], now, calendarToUtc) == AsSeq(Admit(r, now, calendarToUtc))
  {
    assert [r][..0] == [];
  }

  /** An entry is in the output exactly when some record admits it. */
  lemma {:induction false} LoadedMembers(records: seq<Option<Task>>, now: int, calendarToUtc: string -> Option<int>, e: ScheduledJob)
    ensures e in Loaded(records, now, calendarToUtc) <==>
            exists i :: 0 <= i < |records| && Admit(records[i], now, calendarToUtc) == Some(e)
    decreases |records|
  {
    if records != [] {
      var init := records[..|records| - 1];
      LoadedMembers(init, now, calendarToUtc, e);
      if e in Loaded(records, now, calendarToUtc) {
        if e in Loaded(init, now, calendarToUtc) {
          var i :| 0 <= i < |init| && Admit(init[i], now, calendarToUtc) == Some(e);
          assert records[i] == init[i];
        } else {
          assert Admit(records[|records| - 1], now, calendarToUtc) == Some(e);
        }
      }
      if exists i :: 0 <= i < |records| && Admit(records[i], now, calendarToUtc) == Some(e) {
        var i :| 0 <= i < |records| && Admit(records[i], now, calendarToUtc) == Some(e);
        if i < |init| {
          assert init[i] == records[i];
        }
      }
    }
  }

  /** At most one entry per record. */
  lemma {:induction false} LoadedLength(records: seq<Option<Task>>, now: int, calendarToUtc: string -> Option<int>)
    ensures |Loaded(records, now, calendarToUtc)| <= |records|
    decreases |records|
  {
    if records != [] {
      LoadedLength(records[..|records| - 1], now, calendarToUtc);
    }
  }

  /**
   * Every loaded entry runs no earlier than `now`; one without a calendar
   * field is a recurring entry that runs strictly later.
   */
  lemma {:induction false} LoadedNotInPast(records: seq<Option<Task>>, now: int, calendarToUtc: string -> Option<int>)
    ensures forall e :: e in Loaded(records, now, calendarToUtc) ==>
              e.nextRunAt >= now &&
              (e.trigger.onCalendar.None? ==> e.trigger.every.Some? && e.nextRunAt > now)
    decreases |records|
  {
    if records != [] {
      LoadedNotInPast(records[..|records| - 1], now, calendarToUtc);
    }
  }
}
