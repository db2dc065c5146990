/**
 * The task records of src/task.rs, as they arrive from deserialisation.
 * They are plain values: nothing in the scheduler changes them.
 */
module Tasks {
  import opened Wrappers

  /** The job to run: a display label and a shell command line. */
  datatype Job = Job(description: string, command: string)

  /**
   * When to run the job. The two fields are independently optional, so a
   * trigger may carry neither, one, or both of them:
   *  - `onCalendar` holds "YYYY-MM-DD HH:MM:SS" text (a one-time run);
   *  - `every` holds "1h30m10s"-style text (a repeat interval).
   */
  datatype Trigger = Trigger(onCalendar: Option<string>, every: Option<string>)

  /** One task file: exactly one job with exactly one trigger. */
  datatype Task = Task(job: Job, trigger: Trigger)
}
