/** How the outside world may fail an importing program.

    A run's failures are a schedule fixed in advance, one entry per call or save;
    an exhausted schedule means no more failures. A theorem for every schedule is
    a theorem for every run. */
module Faults {
  /** `Retryable` and `Fatal` raise in the program; `Dead` ends its process on the spot. */
  datatype Reply = Fine | Retryable | Fatal | Dead

  /** How one call ends; which rows an upsert applied before; whether a file was replaced before a death. */
  datatype Fault = Fault(reply: Reply, applied: set<string>, durable: bool)
}
