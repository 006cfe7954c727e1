/**
  The notification lifecycle of `MWModPlugin.MWNotificationScript`: a script
  the host calls once per frame (`advance`) until `isDone` is set. It waits
  one second of unguarded frames, shows the low-memory warning, and then,
  when an instructions thread is configured, waits for the shortcut key and
  opens the thread in a browser.

  What the script asks the host during a frame (is a dialog showing, is a
  new game being set up, is the key down, did the browser start) is an
  input `Frame`; what it shows or opens is an output `Effect`.
 */
module Notification {
  import opened JavaLang

  /** The settings the script reads: `INSTRUCTIONS_THREAD` and `OPEN_THREAD_KEY`. */
  datatype Config = Config(instructionsThread: Int32, openThreadKey: Int32)

  /** The three fields of the script. */
  datatype Script = Script(timeUntilWarn: real, hasWarned: bool, isDone: bool)

  /**
    How the attempt to open the forum thread ends: the browser starts; it
    fails with an `IOException` or `URISyntaxException`, which `advance`
    catches; or it fails with an exception `advance` does not catch (no
    desktop support, a headless host, a security manager), which leaves
    `advance` with nothing shown.
   */
  datatype Browse = Opened | CaughtFailure | UncaughtFailure

  /** The host facts of one call of `advance(amount)`. */
  datatype Frame = Frame(amount: real, showingDialog: bool, inNewGameAdvance: bool, keyDown: bool, browse: Browse)

  datatype Message =
    | MemoryWarning                     // "You may not have enough memory allocated ..."
    | InstructionsPrompt(keyCode: Int32) // "If you wish to allocate more memory, press <key> ..."
    | BrowserLaunchFailed               // "Failed to launch web browser: ..."

  datatype Effect =
    | Show(message: Message)
    | OpenForumTopic(topic: Int32)  // the attempt to open the thread in a browser
    | ExceptionEscapes              // an exception leaves `advance`

  /** What follows the attempt to open the thread. */
  function BrowseEffects(b: Browse): (effects: seq<Effect>)
    ensures Show(BrowserLaunchFailed) in effects <==> b == CaughtFailure
    ensures ExceptionEscapes in effects <==> b == UncaughtFailure
    ensures effects == [] <==> b == Opened
    ensures |effects| <= 1
  {
    match b
    case Opened => []
    case CaughtFailure => [Show(BrowserLaunchFailed)]
    case UncaughtFailure => [ExceptionEscapes]
  }

  /** The state after a frame or a run of frames, and what was shown or opened on the way. */
  datatype Outcome = Outcome(next: Script, effects: seq<Effect>)

  const Initial: Script := Script(1.0, false, false)

  /** The player cannot see a message now: nothing happens on this frame. */
  predicate Guarded(f: Frame) {
    f.showingDialog || f.inNewGameAdvance
  }

  /**
    What holds of every reachable state: the timer is still running until the
    warning is shown, the script finishes only after warning, and it keeps
    waiting after the warning only when there is a thread to open.
   */
  predicate Inv(cfg: Config, s: Script) {
    (!s.hasWarned ==> s.timeUntilWarn > 0.0) &&
    (s.isDone ==> s.hasWarned) &&
    (s.hasWarned && !s.isDone ==> cfg.instructionsThread != 0)
  }

  function WarningCount(effects: seq<Effect>): nat {
    multiset(effects)[Show(MemoryWarning)]
  }

  /** One call of `advance`. */
  function Step(cfg: Config, s: Script, f: Frame): (o: Outcome)
    // a finished script and a guarded frame change nothing
    ensures s.isDone || Guarded(f) ==> o == Outcome(s, [])
    // the flags never go back
    ensures s.hasWarned ==> o.next.hasWarned
    ensures s.isDone ==> o.next.isDone
    // the timer runs only on unguarded frames before the warning
    ensures o.next.timeUntilWarn != s.timeUntilWarn ==> !s.isDone && !Guarded(f) && !s.hasWarned
    ensures !s.isDone && !Guarded(f) && !s.hasWarned ==> o.next.timeUntilWarn == s.timeUntilWarn - f.amount
    // the warning is shown once, on the frame the timer reaches zero
    ensures !s.hasWarned && o.next.hasWarned <==> !s.isDone && !Guarded(f) && !s.hasWarned && s.timeUntilWarn - f.amount <= 0.0
    ensures WarningCount(o.effects) == if !s.hasWarned && o.next.hasWarned then 1 else 0
    // without a thread the script is done on that same frame
    ensures !s.hasWarned && o.next.hasWarned ==> (o.next.isDone <==> cfg.instructionsThread == 0)
    // the warning frame shows the warning, then the key prompt exactly when there is a thread
    ensures !s.hasWarned && o.next.hasWarned ==>
      o.effects == [Show(MemoryWarning)] + (if cfg.instructionsThread != 0 then [Show(InstructionsPrompt(cfg.openThreadKey))] else [])
    // the key frame tries to open the thread, then reports how that ended
    ensures s.hasWarned && !s.isDone && !Guarded(f) && f.keyDown ==>
      o.effects == [OpenForumTopic(cfg.instructionsThread)] + BrowseEffects(f.browse)
    // a frame that sets neither flag has no effect
    ensures o.next.hasWarned == s.hasWarned && o.next.isDone == s.isDone ==> o.effects == []
    // after the warning, an unguarded frame finishes the script exactly when the key is down
    ensures s.hasWarned && !s.isDone && !Guarded(f) ==> (o.next.isDone <==> f.keyDown)
    ensures o.next.isDone && !s.isDone && s.hasWarned ==> OpenForumTopic(cfg.instructionsThread) in o.effects
    ensures Inv(cfg, s) ==> Inv(cfg, o.next)
  {
    if s.isDone || Guarded(f) then
      Outcome(s, [])
    else if !s.hasWarned then
      var time := s.timeUntilWarn - f.amount;
      if time <= 0.0 then
        if cfg.instructionsThread != 0 then
          Outcome(Script(time, true, false), [Show(MemoryWarning), Show(InstructionsPrompt(cfg.openThreadKey))])
        else
          Outcome(Script(time, true, true), [Show(MemoryWarning)])
      else
        Outcome(Script(time, false, false), [])
    else if f.keyDown then
      Outcome(Script(s.timeUntilWarn, true, true), [OpenForumTopic(cfg.instructionsThread)] + BrowseEffects(f.browse))
    else
      Outcome(s, [])
  }

  /** The host calling `advance` once per frame, for each frame in turn. */
  function Run(cfg: Config, s: Script, frames: seq<Frame>): Outcome
    decreases |frames|
  {
    if frames == [] then
      Outcome(s, [])
    else
      var first := Step(cfg, s, frames[0]);
      var rest := Run(cfg, first.next, frames[1..]);
      Outcome(rest.next, first.effects + rest.effects)
  }

  /** Time spent in frames where the script could act. */
  function UnguardedTime(frames: seq<Frame>): real
    decreases |frames|
  {
    if frames == [] then 0.0
    else (if Guarded(frames[0]) then 0.0 else frames[0].amount) + UnguardedTime(frames[1..])
  }

  // ---------------------------------------------------------------- properties of runs

  /** Running two stretches of frames one after the other is the same as running them as one. */
  lemma {:induction false} RunSplit(cfg: Config, s: Script, a: seq<Frame>, b: seq<Frame>)
    ensures Run(cfg, s, a + b).next == Run(cfg, Run(cfg, s, a).next, b).next
    ensures Run(cfg, s, a + b).effects == Run(cfg, s, a).effects + Run(cfg, Run(cfg, s, a).next, b).effects
    decreases |a|
  {
    if a == [] {
      assert a + b == b;
    } else {
      var first := Step(cfg, s, a[0]);
      assert (a + b)[0] == a[0];
      assert (a + b)[1..] == a[1..] + b;
      RunSplit(cfg, first.next, a[1..], b);
      var middle := Run(cfg, first.next, a[1..]);
      var last := Run(cfg, middle.next, b);
      assert first.effects + (middle.effects + last.effects) == (first.effects + middle.effects) + last.effects;
    }
  }

  /** Over any run, `hasWarned` and `isDone` never go from true back to false, and the invariant holds. */
  lemma {:induction false} RunMonotone(cfg: Config, s: Script, frames: seq<Frame>)
    ensures s.hasWarned ==> Run(cfg, s, frames).next.hasWarned
    ensures s.isDone ==> Run(cfg, s, frames) == Outcome(s, [])
    ensures Inv(cfg, s) ==> Inv(cfg, Run(cfg, s, frames).next)
    decreases |frames|
  {
    if frames != [] {
      RunMonotone(cfg, Step(cfg, s, frames[0]).next, frames[1..]);
    }
  }

  /** Frames in which the player cannot see a message leave the script exactly as it was. */
  lemma {:induction false} GuardedFramesChangeNothing(cfg: Config, s: Script, frames: seq<Frame>)
    requires forall i :: 0 <= i < |frames| ==> Guarded(frames[i])
    ensures Run(cfg, s, frames) == Outcome(s, [])
    decreases |frames|
  {
    if frames != [] {
      GuardedFramesChangeNothing(cfg, s, frames[1..]);
    }
  }

  /** The warning is shown at most once over any run, and exactly when the run sets `hasWarned`. */
  lemma {:induction false} WarningShownOnce(cfg: Config, s: Script, frames: seq<Frame>)
    ensures WarningCount(Run(cfg, s, frames).effects) == if !s.hasWarned && Run(cfg, s, frames).next.hasWarned then 1 else 0
    decreases |frames|
  {
    if frames != [] {
      var first := Step(cfg, s, frames[0]);
      WarningShownOnce(cfg, first.next, frames[1..]);
      RunMonotone(cfg, first.next, frames[1..]);
      assert multiset(first.effects + Run(cfg, first.next, frames[1..]).effects)
          == multiset(first.effects) + multiset(Run(cfg, first.next, frames[1..]).effects);
    }
  }

  /** Until the warning, the timer has counted down by exactly the time of the unguarded frames. */
  lemma {:induction false} TimerCountsUnguardedTime(cfg: Config, s: Script, frames: seq<Frame>)
    requires Inv(cfg, s) && !s.hasWarned
    requires !Run(cfg, s, frames).next.hasWarned
    ensures Run(cfg, s, frames).next.timeUntilWarn == s.timeUntilWarn - UnguardedTime(frames)
    decreases |frames|
  {
    if frames != [] {
      var first := Step(cfg, s, frames[0]);
      RunMonotone(cfg, first.next, frames[1..]);
      TimerCountsUnguardedTime(cfg, first.next, frames[1..]);
    }
  }

  /**
    Once warned, a script with a thread finishes exactly when some unguarded
    frame has the key down, however the attempt to open the browser ends.
   */
  lemma {:induction false} KeyPressFinishes(cfg: Config, s: Script, frames: seq<Frame>)
    requires s.hasWarned && !s.isDone
    ensures Run(cfg, s, frames).next.isDone <==> exists i :: 0 <= i < |frames| && !Guarded(frames[i]) && frames[i].keyDown
    decreases |frames|
  {
    if frames != [] {
      var first := Step(cfg, s, frames[0]);
      if first.next.isDone {
        RunMonotone(cfg, first.next, frames[1..]);
        assert !Guarded(frames[0]) && frames[0].keyDown;
      } else {
        KeyPressFinishes(cfg, first.next, frames[1..]);
        assert forall i :: 1 <= i < |frames| ==> frames[i] == frames[1..][i - 1];
      }
    }
  }

  /** Two unguarded half-second frames: the warning comes on the second, not the first. */
  lemma HalfSecondFrames(cfg: Config)
    ensures !Run(cfg, Initial, [Frame(0.5, false, false, false, Opened)]).next.hasWarned
    ensures Run(cfg, Initial, [Frame(0.5, false, false, false, Opened), Frame(0.5, false, false, false, Opened)]).next.hasWarned
    ensures Run(cfg, Initial, [Frame(0.5, false, false, false, Opened), Frame(0.5, false, false, false, Opened)]).next.isDone
        <==> cfg.instructionsThread == 0
  {
  }

  // ---------------------------------------------------------------- the script object

  class NotificationScript {
    const instructionsThread: Int32
    const openThreadKey: Int32
    var timeUntilWarn: real
    var hasWarned: bool
    var isDone: bool

    function Settings(): Config {
      Config(instructionsThread, openThreadKey)
    }

    function State(): Script
      reads this
    {
      Script(timeUntilWarn, hasWarned, isDone)
    }

    ghost predicate Valid()
      reads this
    {
      Inv(Settings(), State())
    }

    constructor (instructionsThread: Int32, openThreadKey: Int32)
      ensures Valid()
      ensures Settings() == Config(instructionsThread, openThreadKey)
      ensures State() == Initial
    {
      this.instructionsThread := instructionsThread;
      this.openThreadKey := openThreadKey;
      timeUntilWarn := 1.0;
      hasWarned := false;
      isDone := false;
    }

    /** `isDone()`: the host stops calling `advance` once this is true. */
    method IsDone() returns (done: bool)
      requires Valid()
      ensures done == isDone
      ensures done ==> hasWarned
    {
      done := isDone;
    }

    /** `advance(amount)`: one frame. */
    method Advance(f: Frame) returns (effects: seq<Effect>)
      requires Valid()
      modifies this
      ensures Valid()
      ensures State() == Step(Settings(), old(State()), f).next
      ensures effects == Step(Settings(), old(State()), f).effects
    {
      effects := [];
      if isDone || f.showingDialog || f.inNewGameAdvance {
        return;
      }

      if !hasWarned {
        timeUntilWarn := timeUntilWarn - f.amount;
        if timeUntilWarn <= 0.0 {
          hasWarned := true;
          effects := effects + [Show(MemoryWarning)];
          if instructionsThread != 0 {
            effects := effects + [Show(InstructionsPrompt(openThreadKey))];
          } else {
            isDone := true;
          }
        }
      } else if f.keyDown {
        isDone := true;
        effects := effects + [OpenForumTopic(instructionsThread)];
        match f.browse {
          case Opened =>
          case CaughtFailure =>
            effects := effects + [Show(BrowserLaunchFailed)];
          case UncaughtFailure =>
            effects := effects + [ExceptionEscapes];
        }
      }
    }
  }
}
