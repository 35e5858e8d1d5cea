/**
 * The rows of the `jobs` table, as far as the budget and the scheduler read and write them, and with them the
 * schedule that each run was created under, which no column keeps.
 */
module Jobs {
  import opened Wrappers

  /** A CronJob's name and namespace. */
  datatype JobKey = JobKey(name: string, namespace: string)

  /**
   * A job: the CronJob it is a run of, if any; the schedule that made it due, which is history that only statements
   * about past runs read; when it was created; whether its state is before completion; and the cost it was admitted
   * with.
   */
  datatype JobRow = JobRow(
    owner: Option<JobKey>,
    schedule: string,
    createdAt: int,
    preCompletion: bool,
    estimatedCost: Option<real>)
}
