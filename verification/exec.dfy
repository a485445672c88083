/** The outcome of the shell commands the trust-store adapters run. */
module Exec {

  /** `execSync(command)`: the command's standard output, or a thrown error. */
  datatype CommandResult = Completed(stdout: string) | Threw

  /** How an adapter's returned promise settles. */
  datatype Settled = Resolved | Rejected
}
