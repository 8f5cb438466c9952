/** What the order manager may do after each broker return code (src/xauusd/execution/retcodes.py). */
module Retcodes {

  datatype RetAction =
    | Success | RetryReprice | RetryTransient | FixAndRetry | Abort | AbortAndAlert | KillSwitch | Unknown

  function Classify(code: int): RetAction {
    if code in {10009, 10010, 10008} then Success
    else if code in {10004, 10020, 10021} then RetryReprice
    else if code in {10012, 10031, 10024} then RetryTransient
    else if code in {10016, 10014, 10030, 10015} then FixAndRetry
    else if code in {10006, 10007, 10013, 10022, 10023, 10025, 10036, 10035, 10038, 10039} then Abort
    else if code in {10019, 10018, 10017, 10033, 10034, 10040, 10032} then AbortAndAlert
    else if code in {10026, 10027, 10028, 10029, 10011} then KillSwitch
    else Unknown
  }

  // Codes after which the source sends again without asking the broker anything.
  predicate ResendsBlindly(code: int) {
    Classify(code) in {Success, RetryReprice, FixAndRetry}
  }
}
