/**
  The failures of the core, one constructor per category of error message the
  program produces, each carrying the value the message names.
 */
module Errors {
  import opened Calendar

  datatype Error =
    | Malformed(text: string)              // "failed to parse <text>"
    | WeekdayOutOfRange(weekday: int)      // "day of week <n> out-of-range [1-7]"
    | NoSuchWeekDate(text: string)         // "failed to calculate date of <text>"
    | InvalidWorkday(token: string)        // "failed to parse workday <token>"
    | WorkdayOutOfRange(value: int)        // "given workday <n> not in range [1-7]"
    | Unordered(from: Date, till: Date)    // "<from> must be before <till> in time"

  datatype Result<+T> = Ok(value: T) | Err(error: Error)
}
