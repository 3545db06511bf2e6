/** Diagnostic severities. */
module Levels {
  const OK := 0
  const WARN := 1
  const ERROR := 2
}
