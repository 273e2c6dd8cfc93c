/**
 * Applying a wallpaper to one output through the compositor command, with the
 * bounded retry of setWallpaper in main.go.
 */
module Wallpaper {

  /** The number of attempts before setWallpaper gives up. */
  const MaxAttempts: nat := 5

  /**
   * The compositor command `swaymsg output <output> bg "<path>" fill #000000`:
   * whether its `attempt`-th invocation (counted from 0) for that output and
   * path exits with status 0.
   */
  type Compositor = (string, string, nat) -> bool

  /** How one wallpaper apply ended: the invocations made and whether one succeeded. */
  datatype Outcome = Outcome(attempts: nat, applied: bool)

  /** Reference behaviour once `done` attempts have failed. */
  function RetryFrom(swaymsg: Compositor, output: string, path: string, done: nat): Outcome
    requires done < MaxAttempts
    decreases MaxAttempts - done
  {
    if swaymsg(output, path, done) then Outcome(done + 1, true)
    else if MaxAttempts - (done + 1) <= 0 then Outcome(done + 1, false)
    else RetryFrom(swaymsg, output, path, done + 1)
  }

  /** Reference behaviour of one whole apply. */
  function Retry(swaymsg: Compositor, output: string, path: string): Outcome
  {
    RetryFrom(swaymsg, output, path, 0)
  }

  /**
   * Applies `wallpaperPath` to `output`, retrying after each failed invocation;
   * `applied == false` is the point where main.go panics. The outer `err` stays
   * set throughout, because the loop body declares its own `err`, so the loop
   * is left only by the `break` on success or by giving up.
   */
  method SetWallpaper(output: string, wallpaperPath: string, swaymsg: Compositor)
    returns (attempts: nat, applied: bool)
    ensures Outcome(attempts, applied) == Retry(swaymsg, output, wallpaperPath)
  {
    var retriesLeft := MaxAttempts;
    var err := true;  // no attempt at setting the wallpaper yet
    attempts, applied := 0, false;
    while err && retriesLeft > 0
      invariant 0 < retriesLeft && attempts + retriesLeft == MaxAttempts
      invariant RetryFrom(swaymsg, output, wallpaperPath, attempts) == Retry(swaymsg, output, wallpaperPath)
      decreases retriesLeft
    {
      var ok := swaymsg(output, wallpaperPath, attempts);
      attempts := attempts + 1;
      if !ok {
        retriesLeft := retriesLeft - 1;
        if retriesLeft <= 0 {
          // wallpaper couldn't be set after the last retry: main.go panics here
          applied := false;
          break;
        }
      } else {
        applied := true;
        break;
      }
    }
  }

  /** From `done` failures on, the retry stops at the first success and never passes the bound. */
  lemma {:induction false} RetryFromStopsAtFirstSuccess(swaymsg: Compositor, output: string, path: string, done: nat)
    requires done < MaxAttempts
    ensures var o := RetryFrom(swaymsg, output, path, done);
      && done < o.attempts <= MaxAttempts
      && (forall k :: done <= k < o.attempts - 1 ==> !swaymsg(output, path, k))
      && (o.applied <==> swaymsg(output, path, o.attempts - 1))
      && (!o.applied ==> o.attempts == MaxAttempts)
    decreases MaxAttempts - done
  {
    if !swaymsg(output, path, done) && done + 1 < MaxAttempts {
      RetryFromStopsAtFirstSuccess(swaymsg, output, path, done + 1);
    }
  }

  /**
   * One apply makes between 1 and 5 invocations, none of them after the first
   * that succeeds, and it succeeds exactly when its last invocation did.
   */
  lemma RetryStopsAtFirstSuccess(swaymsg: Compositor, output: string, path: string)
    ensures var o := Retry(swaymsg, output, path);
      && 1 <= o.attempts <= MaxAttempts
      && (forall k :: 0 <= k < o.attempts - 1 ==> !swaymsg(output, path, k))
      && (o.applied <==> swaymsg(output, path, o.attempts - 1))
  {
    RetryFromStopsAtFirstSuccess(swaymsg, output, path, 0);
  }

  /** The apply gives up exactly when all five invocations fail, and then it has made exactly five. */
  lemma RetryGivesUpIffAllFail(swaymsg: Compositor, output: string, path: string)
    ensures !Retry(swaymsg, output, path).applied <==>
      forall k :: 0 <= k < MaxAttempts ==> !swaymsg(output, path, k)
    ensures !Retry(swaymsg, output, path).applied ==> Retry(swaymsg, output, path).attempts == MaxAttempts
  {
    RetryFromStopsAtFirstSuccess(swaymsg, output, path, 0);
  }
}
