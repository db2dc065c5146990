/**
 * One turn of the daemon loop in `main` (src/main.rs:44-98): sort the
 * scheduled jobs by next run time, remove and dispatch every due job at
 * the head, push recurring ones back with an advanced run time, and pick
 * the sleep length.
 *
 * The clock reading `now` (whole UTC seconds) is a parameter. Dispatch
 * (a detached thread running the command) is modelled as returning the
 * job; the sleep itself is modelled as returning its length in seconds.
 */
module Daemon {
  import opened Wrappers
  import opened Tasks
  import Duration
  import opened Loader

  // ---------------------------------------------------------------------
  // Sort phase: `sort_by_key(|j| j.next_run_at)`, a stable sort

  predicate SortedByNextRun(s: seq<ScheduledJob>)
  {
    forall i, j :: 0 <= i < j < |s| ==> s[i].nextRunAt <= s[j].nextRunAt
  }

  /** Places `e` before the first entry that does not run earlier than it. */
  function InsertByNextRun(e: ScheduledJob, s: seq<ScheduledJob>): seq<ScheduledJob>
  {
    if s == [] || e.nextRunAt <= s[0].nextRunAt then [e] + s
    else [s[0]] + InsertByNextRun(e, s[1..])
  }

  function SortByNextRun(s: seq<ScheduledJob>): seq<ScheduledJob>
  {
    if s == [] then [] else InsertByNextRun(s[0], SortByNextRun(s[1..]))
  }

  /** The entries of `s` that run at time `t`, in their order in `s`. */
  function RunningAt(s: seq<ScheduledJob>, t: int): seq<ScheduledJob>
  {
    if s == [] then []
    else (if s[0].nextRunAt == t then [s[0]] else []) + RunningAt(s[1..], t)
  }

  lemma {:induction false} InsertByNextRunPermutes(e: ScheduledJob, s: seq<ScheduledJob>)
    ensures multiset(InsertByNextRun(e, s)) == multiset(s) + multiset{e}
    decreases |s|
  {
    if s != [] && e.nextRunAt > s[0].nextRunAt {
      InsertByNextRunPermutes(e, s[1..]);
      assert s == [s[0]] + s[1..];
    }
  }

  lemma {:induction false} InsertByNextRunSorted(e: ScheduledJob, s: seq<ScheduledJob>)
    requires SortedByNextRun(s)
    ensures SortedByNextRun(InsertByNextRun(e, s))
    decreases |s|
  {
    if s != [] && e.nextRunAt > s[0].nextRunAt {
      var tail := InsertByNextRun(e, s[1..]);
      InsertByNextRunSorted(e, s[1..]);
      InsertByNextRunPermutes(e, s[1..]);
      forall x | x in tail ensures s[0].nextRunAt <= x.nextRunAt {
        assert x in multiset(tail);
        if x != e {
          assert x in multiset(s[1..]);
          var k :| 0 <= k < |s[1..]| && s[1..][k] == x;
          assert s[k + 1] == x;
        }
      }
      var r := [s[0]] + tail;
      forall i, j | 0 <= i < j < |r| ensures r[i].nextRunAt <= r[j].nextRunAt {
        assert r[j] == tail[j - 1];
        if i > 0 {
          assert r[i] == tail[i - 1];
        } else {
          assert r[j] in tail;
        }
      }
    }
  }

  lemma {:induction false} InsertByNextRunStable(e: ScheduledJob, s: seq<ScheduledJob>, t: int)
    ensures RunningAt(InsertByNextRun(e, s), t) ==
            if e.nextRunAt == t then [e] + RunningAt(s, t) else RunningAt(s, t)
    decreases |s|
  {
    if s == [] || e.nextRunAt <= s[0].nextRunAt {
      assert ([e] + s)[1..] == s;
    } else {
      var tail := InsertByNextRun(e, s[1..]);
      InsertByNextRunStable(e, s[1..], t);
      assert ([s[0]] + tail)[1..] == tail;
    }
  }

  /**
   * The sort phase leaves the entries in non-decreasing `nextRunAt`
   * order, as a permutation of the input, and keeps entries with equal
   * run times in their original order (the sort is stable).
   */
  lemma {:induction false} SortByNextRunCorrect(s: seq<ScheduledJob>)
    ensures SortedByNextRun(SortByNextRun(s))
    ensures multiset(SortByNextRun(s)) == multiset(s)
    ensures forall t :: RunningAt(SortByNextRun(s), t) == RunningAt(s, t)
    decreases |s|
  {
    if s != [] {
      SortByNextRunCorrect(s[1..]);
      InsertByNextRunSorted(s[0], SortByNextRun(s[1..]));
      InsertByNextRunPermutes(s[0], SortByNextRun(s[1..]));
      forall t ensures RunningAt(SortByNextRun(s), t) == RunningAt(s, t) {
        InsertByNextRunStable(s[0], SortByNextRun(s[1..]), t);
      }
      assert s == [s[0]] + s[1..];
    }
  }

  // ---------------------------------------------------------------------
  // Drain phase

  /**
   * Rescheduling of a fired entry: when its `every` field parses to `d`
   * seconds it is pushed back with `nextRunAt + d` (anchored to its own
   * scheduled time, not to `now`); otherwise it is dropped. Only `every`
   * is consulted, so an entry that also has a calendar field recurs.
   */
  function Reschedule(e: ScheduledJob): (r: seq<ScheduledJob>)
    ensures |r| <= 1
    ensures r != [] <==> e.trigger.every.Some? && Duration.DurationSeconds(e.trigger.every.value).Some?
    ensures r != [] ==> r[0].job == e.job && r[0].trigger == e.trigger &&
                        r[0].nextRunAt == e.nextRunAt + Duration.DurationSeconds(e.trigger.every.value).value &&
                        r[0].nextRunAt > e.nextRunAt
  {
    if e.trigger.every.Some? then
      match Duration.DurationSeconds(e.trigger.every.value)
      case Some(d) => [e.(nextRunAt := e.nextRunAt + d)]
      case None => []
    else []
  }

  /** The entries pushed back for a sequence of fired entries, in firing order. */
  function Rescheduled(fired: seq<ScheduledJob>): seq<ScheduledJob>
  {
    if fired == [] then [] else Reschedule(fired[0]) + Rescheduled(fired[1..])
  }

  /** How many seconds (plus one) an entry is overdue at `now`; zero when not due. */
  function Overdue(e: ScheduledJob, now: int): nat
  {
    if e.nextRunAt <= now then now - e.nextRunAt + 1 else 0
  }

  /** The termination measure of the drain loop. */
  function Backlog(s: seq<ScheduledJob>, now: int): nat
  {
    if s == [] then 0 else Overdue(s[0], now) + Backlog(s[1..], now)
  }

  lemma {:induction false} BacklogConcat(a: seq<ScheduledJob>, b: seq<ScheduledJob>, now: int)
    ensures Backlog(a + b, now) == Backlog(a, now) + Backlog(b, now)
    decreases |a|
  {
    if a == [] {
      assert a + b == b;
    } else {
      assert (a + b)[1..] == a[1..] + b;
      BacklogConcat(a[1..], b, now);
    }
  }

  /**
   * Removing a due head and pushing back its rescheduled copy strictly
   * lowers the backlog: the copy runs at least one second later, since a
   * parsed duration is positive.
   */
  lemma DrainStepShrinks(queue: seq<ScheduledJob>, now: int)
    requires queue != [] && queue[0].nextRunAt <= now
    ensures Backlog(queue[1..] + Reschedule(queue[0]), now) < Backlog(queue, now)
  {
    var e := queue[0];
    BacklogConcat(queue[1..], Reschedule(e), now);
    if Reschedule(e) != [] {
      var d := Duration.DurationSeconds(e.trigger.every.value).value;
      assert d > 0;
      assert Reschedule(e)[1..] == [];
      assert Backlog(Reschedule(e), now) == Overdue(e.(nextRunAt := e.nextRunAt + d), now);
    }
  }

  datatype DrainResult = DrainResult(remaining: seq<ScheduledJob>, fired: seq<ScheduledJob>)

  /**
   * The drain loop: while the head is due, remove it, record it as fired
   * and push its rescheduled copy (if any) at the END of the vector, with
   * no re-sort; stop at the first head that is not due.
   */
  function Drain(queue: seq<ScheduledJob>, now: int): DrainResult
    decreases Backlog(queue, now)
  {
    if queue == [] || queue[0].nextRunAt > now then DrainResult(queue, [])
    else
      DrainStepShrinks(queue, now);
      var r := Drain(queue[1..] + Reschedule(queue[0]), now);
      DrainResult(r.remaining, [queue[0]] + r.fired)
  }

  /**
   * The drain postcondition: afterwards the vector is empty or its first
   * entry is in the future, and every fired entry was due.
   */
  lemma {:induction false} DrainStopsAtFuture(queue: seq<ScheduledJob>, now: int)
    ensures var r := Drain(queue, now);
      && (r.remaining == [] || r.remaining[0].nextRunAt > now)
      && (forall i :: 0 <= i < |r.fired| ==> r.fired[i].nextRunAt <= now)
    decreases Backlog(queue, now)
  {
    if queue != [] && queue[0].nextRunAt <= now {
      DrainStepShrinks(queue, now);
      var q' := queue[1..] + Reschedule(queue[0]);
      DrainStopsAtFuture(q', now);
      var r' := Drain(q', now);
      var fired := [queue[0]] + r'.fired;
      forall i | 0 <= i < |fired| ensures fired[i].nextRunAt <= now {
        if i > 0 {
          assert fired[i] == r'.fired[i - 1];
        }
      }
    }
  }

  /**
   * The drain behaves as a FIFO queue over the vector followed by the
   * pushed-back copies: the fired entries are exactly its first
   * `|fired|` elements and what remains is the rest. So non-fired entries
   * are unchanged and keep their order, each pushed-back copy goes to the
   * end, and an entry whose `every` is absent or unparsable is never
   * pushed back.
   */
  lemma {:induction false} DrainIsFifo(queue: seq<ScheduledJob>, now: int)
    ensures var r := Drain(queue, now);
      var q := queue + Rescheduled(r.fired);
      && |r.fired| <= |q|
      && r.fired == q[..|r.fired|]
      && r.remaining == q[|r.fired|..]
    decreases Backlog(queue, now)
  {
    var r := Drain(queue, now);
    if queue == [] || queue[0].nextRunAt > now {
      assert queue + Rescheduled(r.fired) == queue;
    } else {
      var e := queue[0];
      DrainStepShrinks(queue, now);
      var q' := queue[1..] + Reschedule(e);
      DrainIsFifo(q', now);
      var r' := Drain(q', now);
      var q'' := q' + Rescheduled(r'.fired);
      var k := |r'.fired|;
      assert r.fired == [e] + r'.fired;
      RescheduledCons(e, r'.fired);
      var q := queue + Rescheduled(r.fired);
      QueueUnfold(queue, Reschedule(e), Rescheduled(r'.fired));
      assert q == [e] + q'';
      assert q[..k + 1] == [e] + q''[..k];
      assert q[k + 1..] == q''[k..];
    }
  }

  /** Split out of DrainIsFifo to keep that proof small. */
  lemma RescheduledCons(e: ScheduledJob, fired: seq<ScheduledJob>)
    ensures Rescheduled([e] + fired) == Reschedule(e) + Rescheduled(fired)
  {
  }

  /** Split out of DrainIsFifo to keep that proof small. */
  lemma QueueUnfold(queue: seq<ScheduledJob>, a: seq<ScheduledJob>, b: seq<ScheduledJob>)
    requires queue != []
    ensures queue + (a + b) == [queue[0]] + ((queue[1..] + a) + b)
  {
  }

  /**
   * Nothing appears or disappears except by firing and pushing back:
   * the entries before the drain together with the pushed-back copies
   * are the remaining entries together with the fired ones.
   */
  lemma DrainConservation(queue: seq<ScheduledJob>, now: int)
    ensures var r := Drain(queue, now);
      multiset(queue) + multiset(Rescheduled(r.fired)) == multiset(r.remaining) + multiset(r.fired)
  {
    var r := Drain(queue, now);
    DrainIsFifo(queue, now);
    var q := queue + Rescheduled(r.fired);
    var k := |r.fired|;
    calc {
      multiset(queue) + multiset(Rescheduled(r.fired));
      multiset(q);
      { assert q == q[..k] + q[k..]; }
      multiset(q[..k]) + multiset(q[k..]);
      multiset(r.fired) + multiset(r.remaining);
    }
  }

  /**
   * A lone recurring job that is behind schedule fires once per missed
   * period, at its anchored times `nextRunAt + i * d`, until its next run
   * time passes `now`; then it is the only entry left.
   */
  lemma {:induction false} LoneRecurringJobCatchesUp(j: ScheduledJob, d: int, now: int)
    requires j.trigger.every.Some? && Duration.DurationSeconds(j.trigger.every.value) == Some(d)
    requires j.nextRunAt <= now
    ensures var r := Drain([j], now);
      var k := |r.fired|;
      && k >= 1
      && r.remaining == [j.(nextRunAt := j.nextRunAt + k * d)]
      && j.nextRunAt + (k - 1) * d <= now < j.nextRunAt + k * d
      && (forall i :: 0 <= i < k ==> r.fired[i] == j.(nextRunAt := j.nextRunAt + i * d))
    decreases now - j.nextRunAt
  {
    var j' := j.(nextRunAt := j.nextRunAt + d);
    assert d > 0;
    assert Reschedule(j) == [j'];
    assert [j][1..] + [j'] == [j'];
    var r := Drain([j], now);
    var r' := Drain([j'], now);
    assert r.fired == [j] + r'.fired && r.remaining == r'.remaining;
    if j'.nextRunAt > now {
      assert r'.fired == [] && r'.remaining == [j'];
    } else {
      LoneRecurringJobCatchesUp(j', d, now);
      var k' := |r'.fired|;
      assert j'.(nextRunAt := j'.nextRunAt + k' * d) == j.(nextRunAt := j.nextRunAt + (k' + 1) * d);
      forall i | 0 <= i < k' + 1 ensures r.fired[i] == j.(nextRunAt := j.nextRunAt + i * d) {
        if i > 0 {
          assert r.fired[i] == r'.fired[i - 1];
          assert j'.nextRunAt + (i - 1) * d == j.nextRunAt + i * d;
        }
      }
    }
  }

  /**
   * An entry with both a calendar time and a valid `every` fires at its
   * time and is then pushed back one period later, because rescheduling
   * looks only at `every`.
   */
  lemma CalendarAndEveryRecurs(e: ScheduledJob, d: int, now: int)
    requires e.trigger.onCalendar.Some?
    requires e.trigger.every.Some? && Duration.DurationSeconds(e.trigger.every.value) == Some(d)
    requires e.nextRunAt <= now < e.nextRunAt + d
    ensures Drain([e], now) == DrainResult([e.(nextRunAt := e.nextRunAt + d)], [e])
  {
    assert [e][1..] + Reschedule(e) == [e.(nextRunAt := e.nextRunAt + d)];
  }

  /** A due entry without a usable `every` fires once and is gone. */
  lemma OneShotFiresOnce(e: ScheduledJob, rest: seq<ScheduledJob>, now: int)
    requires e.nextRunAt <= now
    requires e.trigger.every.None? || Duration.DurationSeconds(e.trigger.every.value).None?
    ensures Drain([e] + rest, now) == DrainResult(Drain(rest, now).remaining, [e] + Drain(rest, now).fired)
  {
    assert ([e] + rest)[1..] + Reschedule(e) == rest;
  }

  // ---------------------------------------------------------------------
  // Sleep phase

  function Min(a: int, b: int): int { if a < b then a else b }

  /**
   * The sleep length, taken from the FIRST entry (not the earliest): the
   * time until it when positive, else one second; an hour when there are
   * no entries; in every case capped at 60 seconds.
   */
  function SleepSeconds(jobs: seq<ScheduledJob>, now: int): (r: int)
    ensures 1 <= r <= 60
  {
    var sleep :=
      if jobs != [] then
        var untilNext := jobs[0].nextRunAt - now;
        if untilNext > 0 then untilNext else 1
      else 3600;
    Min(sleep, 60)
  }

  /**
   * Right after the drain the one-second branch cannot be taken: the
   * sleep is 60 seconds for an empty vector and otherwise the time until
   * the first entry, capped at 60.
   */
  lemma SleepAfterDrain(queue: seq<ScheduledJob>, now: int)
    ensures var rest := Drain(queue, now).remaining;
      SleepSeconds(rest, now) == if rest == [] then 60 else Min(rest[0].nextRunAt - now, 60)
  {
    DrainStopsAtFuture(queue, now);
  }

  /** The jobs handed to the executor, one per fired entry, in firing order. */
  function JobsOf(fired: seq<ScheduledJob>): (jobs: seq<Job>)
    ensures |jobs| == |fired|
    ensures forall i :: 0 <= i < |fired| ==> jobs[i] == fired[i].job
  {
    if fired == [] then [] else [fired[0].job] + JobsOf(fired[1..])
  }

  // ---------------------------------------------------------------------
  // Concrete runs

  lemma SmallDurations()
    ensures Duration.DurationSeconds("10s") == Some(10)
    ensures Duration.DurationSeconds("2s") == Some(2)
  {
    var ten: seq<Duration.Digit> := "10";
    assert Duration.DecimalValue(ten) == 10 by { assert ten[..1] == "1"; }
    var segs := [Duration.Segment(ten, 's')];
    assert Duration.Render(segs) == "10s";
    Duration.SegmentsDuration(segs);
  }

  /**
   * After the drain the vector need not be sorted, and the sleep follows
   * the first entry: a job every 10 s due at 5 and a one-shot job at 20,
   * drained at 10, leave the one-shot job first and the copy due at 15
   * behind it; the sleep is 10 seconds although the earliest entry is
   * due in 5.
   */
  lemma PushedBackCopyMayPrecedeHead(jobA: Job, jobB: Job, calendar: string)
    ensures var a := ScheduledJob(jobA, Trigger(None, Some("10s")), 5);
      var b := ScheduledJob(jobB, Trigger(Some(calendar), None), 20);
      var r := Drain([a, b], 10);
      && r == DrainResult([b, a.(nextRunAt := 15)], [a])
      && !SortedByNextRun(r.remaining)
      && SleepSeconds(r.remaining, 10) == 10
  {
    SmallDurations();
    var a := ScheduledJob(jobA, Trigger(None, Some("10s")), 5);
    var b := ScheduledJob(jobB, Trigger(Some(calendar), None), 20);
    assert Reschedule(a) == [a.(nextRunAt := 15)];
    assert [a, b][1..] + Reschedule(a) == [b, a.(nextRunAt := 15)];
    var a15 := a.(nextRunAt := 15);
    assert Drain([b, a15], 10) == DrainResult([b, a15], []);
    assert Drain([a, b], 10) == DrainResult([b, a15], [a]);
    assert [b, a15][0].nextRunAt > [b, a15][1].nextRunAt;
  }

  /**
   * Three records loaded at `now`: A every 2 s, B on a calendar time one
   * second ahead, C on a calendar time an hour ago. C is dropped at load;
   * two seconds later one turn fires B and then A, B is gone, and A stays
   * scheduled at its anchored time `now + 4`.
   */
  lemma ThreeRecordScenario(now: int, jobA: Job, jobB: Job, jobC: Job)
    ensures var ta, tb := Trigger(None, Some("2s")), Trigger(Some(CalendarB), None);
      var loaded := Loaded(ThreeRecords(jobA, jobB, jobC), now, ThreeRecordCalendar(now));
      && loaded == [ScheduledJob(jobA, ta, now + 2), ScheduledJob(jobB, tb, now + 1)]
      && Drain(SortByNextRun(loaded), now + 2) ==
           DrainResult([ScheduledJob(jobA, ta, now + 4)], [ScheduledJob(jobB, tb, now + 1), ScheduledJob(jobA, ta, now + 2)])
  {
    ThreeRecordLoad(now, jobA, jobB, jobC);
    var ta, tb := Trigger(None, Some("2s")), Trigger(Some(CalendarB), None);
    ThreeRecordTurn(ScheduledJob(jobA, ta, now + 2), ScheduledJob(jobB, tb, now + 1), now);
  }

  const CalendarB: string := "2030-01-01 00:00:01"
  const CalendarC: string := "2030-01-01 00:00:00"

  function ThreeRecordCalendar(now: int): string -> Option<int>
  {
    (s: string) => if s == CalendarB then Some(now + 1) else if s == CalendarC then Some(now - 3600) else None
  }

  function ThreeRecords(jobA: Job, jobB: Job, jobC: Job): seq<Option<Task>>
  {
    [Some(Task(jobA, Trigger(None, Some("2s")))),
     Some(Task(jobB, Trigger(Some(CalendarB), None))),
     Some(Task(jobC, Trigger(Some(CalendarC), None)))]
  }

  lemma ThreeRecordLoad(now: int, jobA: Job, jobB: Job, jobC: Job)
    ensures Loaded(ThreeRecords(jobA, jobB, jobC), now, ThreeRecordCalendar(now)) ==
            [ScheduledJob(jobA, Trigger(None, Some("2s")), now + 2), ScheduledJob(jobB, Trigger(Some(CalendarB), None), now + 1)]
  {
    SmallDurations();
    var records := ThreeRecords(jobA, jobB, jobC);
    var cal := ThreeRecordCalendar(now);
    var a := ScheduledJob(jobA, Trigger(None, Some("2s")), now + 2);
    var b := ScheduledJob(jobB, Trigger(Some(CalendarB), None), now + 1);
    assert CalendarB != CalendarC;
    assert Admit(records[0], now, cal) == Some(a);
    assert Admit(records[1], now, cal) == Some(b);
    assert Admit(records[2], now, cal) == None;
    assert records[..2][..1] == records[..1] && records[..1][..0] == [];
    assert records[..3] == records;
    assert Loaded(records[..1], now, cal) == [a];
    assert Loaded(records[..2], now, cal) == [a, b];
  }

  lemma ThreeRecordTurn(a: ScheduledJob, b: ScheduledJob, now: int)
    requires a.trigger == Trigger(None, Some("2s")) && a.nextRunAt == now + 2
    requires b.trigger.every.None? && b.nextRunAt == now + 1
    ensures Drain(SortByNextRun([a, b]), now + 2) == DrainResult([a.(nextRunAt := now + 4)], [b, a])
  {
    SmallDurations();
    assert [a, b][1..] == [b] && [b][1..] == [];
    assert SortByNextRun([b]) == [b];
    assert InsertByNextRun(a, [b]) == [b, a];
    assert SortByNextRun([a, b]) == [b, a];
    assert Reschedule(b) == [];
    var a4 := a.(nextRunAt := now + 4);
    assert Reschedule(a) == [a4];
    assert [b, a][1..] + Reschedule(b) == [a];
    assert [a][1..] + Reschedule(a) == [a4];
    assert Drain([a4], now + 2) == DrainResult([a4], []);
    assert Drain([a], now + 2) == DrainResult([a4], [a]);
  }

  // ---------------------------------------------------------------------
  // The loop state: the `scheduled_jobs` vector

  class Scheduler {
    var jobs: seq<ScheduledJob>

    constructor (loaded: seq<ScheduledJob>)
      ensures jobs == loaded
    {
      jobs := loaded;
    }

    /** `scheduled_jobs.sort_by_key(|j| j.next_run_at)` */
    method SortJobs()
      modifies this
      ensures jobs == SortByNextRun(old(jobs))
      ensures SortedByNextRun(jobs) && multiset(jobs) == multiset(old(jobs))
    {
      SortByNextRunCorrect(jobs);
      jobs := SortByNextRun(jobs);
    }

    /** The `while let Some(next_job) = scheduled_jobs.first()` loop; returns the fired entries. */
    method DrainDue(now: int) returns (fired: seq<ScheduledJob>)
      modifies this
      ensures Drain(old(jobs), now) == DrainResult(jobs, fired)
      ensures jobs == [] || jobs[0].nextRunAt > now
      ensures forall i :: 0 <= i < |fired| ==> fired[i].nextRunAt <= now
    {
      ghost var initial := jobs;
      fired := [];
      while jobs != []
        invariant Drain(jobs, now).remaining == Drain(initial, now).remaining
        invariant fired + Drain(jobs, now).fired == Drain(initial, now).fired
        decreases Backlog(jobs, now)
      {
        if now >= jobs[0].nextRunAt {
          ghost var before := jobs;
          DrainStepShrinks(before, now);
          var jobToRun := jobs[0];
          jobs := jobs[1..];
          fired := fired + [jobToRun];
          if jobToRun.trigger.every.Some? {
            var duration := Duration.ParseDuration(jobToRun.trigger.every.value);
            if duration.Some? {
              jobToRun := jobToRun.(nextRunAt := jobToRun.nextRunAt + duration.value);
              jobs := jobs + [jobToRun];
            }
          }
          assert jobs == before[1..] + Reschedule(before[0]);
        } else {
          break;
        }
      }
      DrainStopsAtFuture(initial, now);
    }

    /**
     * One turn of the loop: sort, drain, then the sleep length. Returns
     * the dispatched jobs in dispatch order.
     */
    method RunCycle(now: int) returns (dispatched: seq<Job>, sleepSeconds: int)
      modifies this
      ensures var r := Drain(SortByNextRun(old(jobs)), now);
        jobs == r.remaining && dispatched == JobsOf(r.fired)
      ensures sleepSeconds == SleepSeconds(jobs, now)
      ensures jobs == [] ==> sleepSeconds == 60
      ensures jobs != [] ==> jobs[0].nextRunAt > now && sleepSeconds == Min(jobs[0].nextRunAt - now, 60)
    {
      SortJobs();
      var fired := DrainDue(now);
      dispatched := JobsOf(fired);
      sleepSeconds := SleepSeconds(jobs, now);
    }
  }
}
