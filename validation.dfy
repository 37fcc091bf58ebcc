/**
 * The validation primitives of models/validation.go: membership in the status
 * and priority enums, the title length rule and the "today or later" due-date rule.
 * The clock that IsValidDate reads is the parameter `now`.
 */
module Validation {
  import opened Dates

  const ValidStatuses: seq<string> := ["pending", "in_progress", "completed", "cancelled"]
  const ValidPriorities: seq<string> := ["low", "medium", "high"]

  /** The status enum is exactly these four words. */
  function IsValidStatus(status: string): (ok: bool)
    ensures ok <==> status == "pending" || status == "in_progress" || status == "completed" || status == "cancelled"
  {
    status in ValidStatuses
  }

  /** The priority enum is exactly these three words; in particular "" is not a priority. */
  function IsValidPriority(priority: string): (ok: bool)
    ensures ok <==> priority == "low" || priority == "medium" || priority == "high"
    ensures ok ==> priority != ""
  {
    priority in ValidPriorities
  }

  /** A title is valid when it has between 3 and 100 characters; so a valid title is never empty. */
  function IsValidTitle(title: string): (ok: bool)
    ensures ok <==> 3 <= |title| <= 100
    ensures ok ==> title != ""
  {
    3 <= |title| <= 100
  }

  /** A task is completed (and so frozen) exactly when its status is "completed", itself a valid status. */
  function IsCompletedTask(status: string): (done: bool)
    ensures done <==> status == "completed"
    ensures done ==> IsValidStatus(status)
  {
    status == "completed"
  }

  /**
   * IsValidDate(due) at clock reading `now`: both instants are truncated to their
   * calendar day, and the due day is accepted unless it is strictly before today.
   */
  function IsValidDate(due: Instant, now: Instant): (ok: bool)
    ensures ok <==> due.date == now.date || Before(now.date, due.date)
  {
    !Before(due.date, now.date)
  }

  /** Only the calendar days matter: the time of day of either instant never changes the answer. */
  lemma IsValidDateIgnoresTimeOfDay(due: Date, today: Date, t1: nat, t2: nat, n1: nat, n2: nat)
    ensures IsValidDate(Instant(due, t1), Instant(today, n1)) == IsValidDate(Instant(due, t2), Instant(today, n2))
  {
  }

  /** Today, and every day after a day that is accepted, is accepted; yesterday is not. */
  lemma IsValidDateMonotone(due: Date, n: int, now: Instant)
    requires ValidDate(due) && IsValidDate(AtMidnight(due), now)
    requires n >= 0
    ensures IsValidDate(AtMidnight(AddDays(due, n)), now)
  {
    if n > 0 {
      AddDaysForward(due, n);
    }
  }

  /** The day-granularity examples: today and tomorrow are accepted, yesterday is rejected. */
  lemma IsValidDateAroundToday(now: Instant)
    requires ValidDate(now.date)
    ensures IsValidDate(AtMidnight(now.date), now)
    ensures IsValidDate(AtMidnight(AddDays(now.date, 1)), now)
    ensures !IsValidDate(AtMidnight(AddDays(now.date, -1)), now)
  {
    AddDaysForward(now.date, 1);
    AddDaysBackward(now.date, -1);
  }

  /** The examples of the enum and title tests. */
  lemma ValidationExamples()
    ensures IsValidStatus("pending") && IsValidStatus("in_progress") && IsValidStatus("completed") && IsValidStatus("cancelled")
    ensures !IsValidStatus("foo") && !IsValidStatus("done") && !IsValidStatus("waiting")
    ensures IsValidPriority("low") && IsValidPriority("medium") && IsValidPriority("high")
    ensures !IsValidPriority("urgent") && !IsValidPriority("none") && !IsValidPriority("foo") && !IsValidPriority("")
    ensures IsValidTitle("abc") && IsValidTitle("A Valid Title") && IsValidTitle(seq(100, _ => 'x'))
    ensures !IsValidTitle("") && !IsValidTitle("ab") && !IsValidTitle(seq(101, _ => 'x'))
    ensures IsCompletedTask("completed") && !IsCompletedTask("pending")
  {
  }
}
