/** The idle timeout of an event: one timer that is set late on purpose, and set again when it fires early.

  Times and lengths of time are in milliseconds.
 */
module EvntTimer {

  /** How long a timer for msecs waits: one of the three queues of evnt__timeout_mtime_make. */
  function Bucket(msecs: nat): nat {
    if msecs >= 99 * 1000 then 100 * 1000
    else if msecs >= 9 * 1000 then 10 * 1000
    else 1000
  }

  /** An event with a timer: its last activity, when its timer runs, and its timeout. */
  datatype Timed = Timed(mtime: nat, due: nat, msecs: nat)

  /** What a timer finds when it runs. */
  datatype Fired = Again(t: Timed) | TimedOut

  function Fire(t: Timed): Fired {
    var ends := t.mtime + t.msecs;
    if t.due < ends then Again(t.(due := t.due + Bucket(ends - t.due))) else TimedOut
  }

  function Start(mtime: nat, now: nat, msecs: nat): Timed {
    Timed(mtime, now + Bucket(msecs), msecs)
  }

  datatype Step = Active(now: nat) | Run

  /** Activity happens between the last activity and the next run of the timer. */
  predicate CanStep(t: Timed, s: Step) {
    t.mtime <= t.due && (s.Active? ==> t.mtime <= s.now <= t.due) && (s.Run? ==> Fire(t).Again?)
  }

  function After(t: Timed, s: Step): Timed
    requires CanStep(t, s)
  {
    match s
    case Active(now) => t.(mtime := now)
    case Run => Fire(t).t
  }

  ghost predicate Reaches(t: Timed, steps: seq<Step>, r: Timed)
    decreases |steps|
  {
    if steps == [] then r == t
    else CanStep(t, steps[0]) && Reaches(After(t, steps[0]), steps[1..], r)
  }

  /** The timer is never set for more than a second after the timeout would be up. */
  lemma {:induction false} DueSoon(now: nat, t: Timed, steps: seq<Step>, r: Timed)
    requires t.mtime <= t.due && Reaches(t, steps, r)
    requires t.due <= (if t.mtime > now then t.mtime else now) + t.msecs + 1000
    ensures r.msecs == t.msecs && t.mtime <= r.mtime <= r.due
    ensures r.due <= (if r.mtime > now then r.mtime else now) + r.msecs + 1000
    decreases |steps|
  {
    if steps != [] {
      DueSoon(now, After(t, steps[0]), steps[1..], r);
    }
  }

  /** In every run, for every timeout and every pattern of activity: an event that is timed out has been
    idle for the whole timeout, and for at most a second more, counted from its last activity or from
    when the timeout was asked for, whichever is later. */
  lemma TimeoutInTime(mtime: nat, now: nat, msecs: nat, steps: seq<Step>, r: Timed)
    requires mtime <= now && Reaches(Start(mtime, now, msecs), steps, r) && Fire(r).TimedOut?
    ensures r.mtime + msecs <= r.due
    ensures r.due <= (if r.mtime > now then r.mtime else now) + msecs + 1000
  {
    DueSoon(now, Start(mtime, now, msecs), steps, r);
  }

  /** An event that is never active again after the timeout was asked for is late by its last activity alone
    exactly when the first timer already is. */
  lemma AskedLate(mtime: nat, now: nat, msecs: nat)
    requires mtime <= now
    ensures Expiry(Start(mtime, now, msecs)) <= mtime + msecs + 1000
        <==> now + Bucket(msecs) <= mtime + msecs + 1000
  {
  }

  /** A timeout of a second, asked for five seconds after the last activity, is up after six. */
  lemma AskedFiveLate()
    ensures Expiry(Start(0, 5000, 1000)) == 6000
  {
  }

  /** When an event that stays idle is timed out. */
  function Expiry(t: Timed): (at: nat)
    requires t.mtime <= t.due
    ensures t.mtime + t.msecs <= at && t.due <= at
    ensures at <= t.mtime + t.msecs + 1000 || at == t.due
    decreases t.mtime + t.msecs + 1000 - t.due
  {
    match Fire(t)
    case Again(r) => Expiry(r)
    case TimedOut => t.due
  }

  /** The number of times the timer of an idle event runs. */
  function Runs(t: Timed): nat
    requires t.mtime <= t.due
    decreases t.mtime + t.msecs + 1000 - t.due
  {
    match Fire(t)
    case Again(r) => 1 + Runs(r)
    case TimedOut => 1
  }

  /** An event that is idle from the start is timed out between its timeout and a second more. */
  lemma IdleExpires(now: nat, msecs: nat)
    ensures now + msecs <= Expiry(Start(now, now, msecs)) <= now + msecs + 1000
  {
  }

  /** The coarse queues are enough: at most 20 runs more than one for every 100 seconds. */
  lemma {:induction false} FewRuns(t: Timed)
    requires t.mtime <= t.due
    ensures var left := t.mtime + t.msecs - t.due;
      Runs(t) <= if left <= 0 then 1 else if left < 9000 then 1 + (left + 999) / 1000
                 else if left < 99000 then 10 + (left + 999) / 10000
                 else 20 + left / 100000
    decreases t.mtime + t.msecs + 1000 - t.due
  {
    if Fire(t).Again? {
      FewRuns(Fire(t).t);
    }
  }

  class Idle {
    var mtime: nat
    var due: nat
    var msecs: nat
    var wShutdown: bool
    var closed: bool

    ghost function View(): Timed
      reads this
    {
      Timed(mtime, due, msecs)
    }

    /** evnt_sc_timeout_via_mtime */
    constructor (mtime: nat, now: nat, msecs: nat)
      ensures View() == Start(mtime, now, msecs) && !wShutdown && !closed
    {
      this.mtime, this.msecs, wShutdown, closed := mtime, msecs, false, false;
      due := now + Bucket(msecs);
    }

    /** evnt__timer_cb_mtime, run when due: an event that has been idle long enough has its output shut
      down and a full timeout more, and one whose output cannot be shut down any more is closed. */
    method TimerCb(shut: bool)
      requires mtime <= due && !closed
      modifies this
      ensures match Fire(old(View()))
        case Again(t) => View() == t && wShutdown == old(wShutdown) && !closed
        case TimedOut =>
          if shut && !old(wShutdown) then
            View() == Start(old(due), old(due), msecs) && wShutdown && !closed && msecs == old(msecs)
          else closed && View() == old(View())
    {
      var now := due;
      var diff := now - mtime;
      if diff < msecs {
        diff := msecs - diff;
      } else {
        if !shut || wShutdown {
          closed := true;
          return;
        }
        wShutdown := true;
        mtime := now;
        diff := msecs;
      }
      due := now + Bucket(diff);
    }
  }
}
