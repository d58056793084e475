/**
 * What the two terminal programs (the day session and the configuration
 * form) share: the key presses they distinguish and the self-clearing status
 * line.
 *
 * A status is shown under a fresh sequence number and a timer is armed that
 * later delivers that number back; the status is cleared only if the number
 * is still the latest, so an old timer never clears a newer status.
 *
 * Source: internal/tuiapp/model.go and internal/tuiapp/config.go (`setStatus`
 * and the `statusTimeoutMsg` case of both `Update` methods).
 */
module Terminal {
  import opened Base

  /** A key press, as `tea.KeyMsg.String()` distinguishes them. `Rune(c)` is a single typed character. */
  datatype KeyPress = CtrlC | Esc | Enter | Up | Down | LeftArrow | RightArrow | Rune(c: char) | OtherKey

  /**
   * The status line: its text, the sequence number of the latest status, and
   * the timer armed during the current message (handed to the runtime at the
   * end of `Update`).
   */
  datatype StatusLine<T> = StatusLine(text: Option<T>, number: int, timer: Option<int>)

  /**
   * `setStatus`: shows `t` under a fresh sequence number and arms a timer
   * carrying that number when the timeout is positive.
   */
  function Bump<T>(line: StatusLine<T>, t: T, timeoutMs: int): (r: StatusLine<T>)
    ensures r.text == Some(t)
    ensures r.number > line.number
    ensures timeoutMs > 0 ==> r.timer == Some(r.number)
    ensures timeoutMs <= 0 ==> r.timer.None?
  {
    var n := line.number + 1;
    StatusLine(Some(t), n, if timeoutMs > 0 then Some(n) else None)
  }

  /** A status timer that is armed carries the number of the latest status. */
  predicate TimerFresh<T>(line: StatusLine<T>) {
    line.timer.None? || line.timer == Some(line.number)
  }

  /**
   * What every handler does to the status line: the sequence number never
   * goes back, a fresh timer stays fresh, and a timer is only (re)armed
   * together with a new status.
   */
  predicate StatusAdvance<T>(a: StatusLine<T>, b: StatusLine<T>) {
    && b.number >= a.number
    && (TimerFresh(a) ==> TimerFresh(b))
    && (b.timer != a.timer ==> b.number > a.number)
  }

  /**
   * The status timer's message: it clears the status only when it carries
   * the number of the latest status, so a timer armed for an older status
   * never clears a newer one.
   */
  function Expire<T>(line: StatusLine<T>, n: int): (r: StatusLine<T>)
    ensures n == line.number ==> r.text.None?
    ensures n != line.number ==> r == line
    ensures r.number == line.number && r.timer == line.timer
  {
    if n == line.number then line.(text := None) else line
  }

  /** Handing the armed timer to the runtime disarms it. */
  function Disarm<T>(line: StatusLine<T>): (r: StatusLine<T>)
    ensures r.timer.None? && r.text == line.text && r.number == line.number
  {
    line.(timer := None)
  }
}
