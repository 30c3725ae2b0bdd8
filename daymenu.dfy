/**
 * The day-of-month menu and NACC.prototype.evaluateMonthDays, which disables
 * the days the chosen month does not have and pulls a selection that lies too
 * far down back to the month's last day.
 */
module DayMenu {
  import opened Calendar

  function Min(a: int, b: int): int
  {
    if a < b then a else b
  }

  /**
   * Days of the month chosen in the menus. The 1-based month value, read as a
   * 0-based month, names the following month; one second before its first day
   * is the last day of the chosen month, in the next year after December.
   */
  function MenuMonthLength(yearValue: int, monthValue: int): (n: int)
    requires 1 <= monthValue <= 12
    ensures 28 <= n <= 31
    ensures ValidDate(Date(yearValue, monthValue - 1, n))
    ensures NextDate(Date(yearValue, monthValue - 1, n))
         == if monthValue == 12 then Date(yearValue + 1, 0, 1) else Date(yearValue, monthValue, 1)
  {
    DaysInMonth(yearValue, monthValue - 1)
  }

  /** The day menu: one option per day 1 to 31, each possibly disabled, and the selected index. */
  class DayPopup {
    /** The disabled flag of each option, in menu order (option i is day i + 1). */
    const disabled: array<bool>
    /** Index of the selected option; -1 when nothing is selected. */
    var selectedIndex: int

    /** The menu as first built: 31 enabled options, today's day selected. */
    constructor (nowDay: int)
      ensures fresh(disabled) && disabled.Length == 31
      ensures forall i :: 0 <= i < disabled.Length ==> !disabled[i]
      ensures selectedIndex == nowDay - 1
    {
      disabled := new bool[31](_ => false);
      selectedIndex := nowDay - 1;
    }

    /**
     * Option i ends up disabled exactly when the month has no day i + 1; the
     * selection moves back only when it lies past the month's last day.
     */
    method EvaluateMonthDays(yearValue: int, monthValue: int)
      requires 1 <= monthValue <= 12
      modifies this, disabled
      ensures var n := DaysInMonth(yearValue, monthValue - 1);
        && (forall i :: 0 <= i < disabled.Length ==> (disabled[i] <==> i >= n))
        && selectedIndex == Min(old(selectedIndex) + 1, n) - 1
        && selectedIndex <= n - 1
        && (old(selectedIndex) < n ==> selectedIndex == old(selectedIndex))
        && (selectedIndex >= 0 ==> ValidDate(Date(yearValue, monthValue - 1, selectedIndex + 1)))
    {
      var numDays := MenuMonthLength(yearValue, monthValue);
      selectedIndex := Min(selectedIndex + 1, numDays) - 1;
      var i := 0;
      while i < disabled.Length
        invariant 0 <= i <= disabled.Length
        invariant selectedIndex == Min(old(selectedIndex) + 1, numDays) - 1
        invariant forall k :: 0 <= k < i ==> (disabled[k] <==> k >= numDays)
      {
        disabled[i] := i >= numDays;
        i := i + 1;
      }
    }
  }
}
