/** A PSR-3 `LoggerInterface`. The pattern retriever only sends it debug
    diagnostics, which have no bearing on what it yields and are not
    recorded here, so the logger carries no state: it matters only as the
    object that is injected and handed back. */
module Log {

  class Logger {
    constructor ()
    {
    }
  }
}
