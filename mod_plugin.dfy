/**
  `MWModPlugin` itself: the settings read at application load, and the
  once-per-process memory check at game load that may add a notification
  script.

  Java keeps the settings and the `hasChecked` flag in static fields, one
  copy per process; here they are the fields of one `MWModPlugin` object,
  which stands for that process-wide state.
 */
module ModPlugin {
  import opened Wrappers
  import opened JavaLang
  import opened MemoryCheck
  import opened Notification

  const RECOMMENDED_KEY: string := "recommendedMaxMemoryInMegabytes"
  const THREAD_KEY: string := "instructionsThreadId"
  const OPEN_KEY: string := "launchInstructionsThreadKey"
  const DEFAULT_RECOMMENDED_MB: Int32 := 2048
  const DEFAULT_THREAD: Int32 := 0
  const DEFAULT_OPEN_KEY: Int32 := 41

  /** A member value of the settings object: an integral number, or anything else. */
  datatype JsonValue = JsonInteger(value: int) | JsonOther

  datatype Settings = Settings(recommendedMB: Int32, instructionsThread: Int32, openThreadKey: Int32)

  /**
    `JSONObject.optInt(key, fallback)`: the member's `intValue()` when it is
    an integral number (narrowed to 32 bits), the fallback otherwise.
   */
  function OptInt(json: map<string, JsonValue>, key: string, fallback: Int32): (v: Int32)
    ensures key !in json || json[key].JsonOther? ==> v == fallback
    ensures key in json && json[key].JsonInteger? ==> (v - json[key].value) % 0x1_0000_0000 == 0
    ensures key in json && json[key].JsonInteger? && InInt32Range(json[key].value) ==> v == json[key].value
  {
    if key in json && json[key].JsonInteger? then Wrap32(json[key].value) else fallback
  }

  /** The three settings of `onApplicationLoad`, each read from its own key, with its own default. */
  function LoadSettings(json: map<string, JsonValue>): (st: Settings)
    ensures RECOMMENDED_KEY !in json ==> st.recommendedMB == DEFAULT_RECOMMENDED_MB
    ensures THREAD_KEY !in json ==> st.instructionsThread == DEFAULT_THREAD
    ensures OPEN_KEY !in json ==> st.openThreadKey == DEFAULT_OPEN_KEY
    ensures forall v :: RECOMMENDED_KEY in json && json[RECOMMENDED_KEY] == JsonInteger(v) && InInt32Range(v) ==> st.recommendedMB == v
    ensures forall v :: THREAD_KEY in json && json[THREAD_KEY] == JsonInteger(v) && InInt32Range(v) ==> st.instructionsThread == v
    ensures forall v :: OPEN_KEY in json && json[OPEN_KEY] == JsonInteger(v) && InInt32Range(v) ==> st.openThreadKey == v
  {
    Settings(
      OptInt(json, RECOMMENDED_KEY, DEFAULT_RECOMMENDED_MB),
      OptInt(json, THREAD_KEY, DEFAULT_THREAD),
      OptInt(json, OPEN_KEY, DEFAULT_OPEN_KEY))
  }

  /** A settings file without the three keys gives 2048 MB, no thread, key code 41. */
  lemma MissingKeysGiveDefaults(json: map<string, JsonValue>)
    requires RECOMMENDED_KEY !in json && THREAD_KEY !in json && OPEN_KEY !in json
    ensures LoadSettings(json) == Settings(2048, 0, 41)
  {
  }

  /** What one `onGameLoad` call did. */
  datatype GameLoadOutcome =
    | AlreadyChecked                            // a check ran earlier in this process
    | EnoughMemory                              // checked, no warning needed
    | ScriptAdded(script: NotificationScript)   // checked, a notification script was added
    | CheckFailed(error: CheckError)            // the check threw; the exception leaves onGameLoad

  class MWModPlugin {
    var recommendedMB: Int32
    var instructionsThread: Int32
    var openThreadKey: Int32
    var hasChecked: bool

    /** How many memory checks and how many scripts this process has had. */
    ghost var checksRun: nat
    ghost var scriptsAdded: nat

    ghost predicate Valid()
      reads this
    {
      scriptsAdded <= checksRun <= 1 &&
      (hasChecked <==> checksRun == 1)
    }

    function CurrentSettings(): Settings
      reads this
    {
      Settings(recommendedMB, instructionsThread, openThreadKey)
    }

    /** A fresh process: static `int` fields are 0 and `hasChecked` is false. */
    constructor ()
      ensures Valid()
      ensures !hasChecked && checksRun == 0 && scriptsAdded == 0
      ensures CurrentSettings() == Settings(0, 0, 0)
    {
      recommendedMB, instructionsThread, openThreadKey := 0, 0, 0;
      hasChecked := false;
      checksRun, scriptsAdded := 0, 0;
    }

    /** `onApplicationLoad`: the settings come from the parsed contents of `mem_settings.json`. */
    method OnApplicationLoad(json: map<string, JsonValue>)
      requires Valid()
      modifies this
      ensures Valid()
      ensures CurrentSettings() == LoadSettings(json)
      ensures hasChecked == old(hasChecked)
      ensures checksRun == old(checksRun) && scriptsAdded == old(scriptsAdded)
    {
      recommendedMB := OptInt(json, RECOMMENDED_KEY, DEFAULT_RECOMMENDED_MB);
      instructionsThread := OptInt(json, THREAD_KEY, DEFAULT_THREAD);
      openThreadKey := OptInt(json, OPEN_KEY, DEFAULT_OPEN_KEY);
    }

    /**
      `onGameLoad`: the first call in the process runs the memory check and,
      when memory is short, adds a fresh notification script; every later
      call does nothing. The flag is set before the check, so a check that
      throws is not repeated either.
     */
    method OnGameLoad(facts: HostFacts) returns (outcome: GameLoadOutcome)
      requires Valid()
      modifies this
      ensures Valid()
      ensures hasChecked
      ensures CurrentSettings() == old(CurrentSettings())
      ensures old(hasChecked) ==> outcome == AlreadyChecked && checksRun == old(checksRun) && scriptsAdded == old(scriptsAdded)
      ensures !old(hasChecked) ==> checksRun == old(checksRun) + 1
      ensures !old(hasChecked) ==> match CheckMemory(recommendedMB, facts)
        case Err(e) => outcome == CheckFailed(e)
        case Ok(enough) => (enough ==> outcome == EnoughMemory) && (!enough ==> outcome.ScriptAdded?)
      ensures outcome.ScriptAdded? ==> scriptsAdded == old(scriptsAdded) + 1 && fresh(outcome.script)
      ensures !outcome.ScriptAdded? ==> scriptsAdded == old(scriptsAdded)
      ensures outcome.ScriptAdded? ==> outcome.script.Valid() && outcome.script.State() == Initial
      ensures outcome.ScriptAdded? ==> outcome.script.Settings() == Config(instructionsThread, openThreadKey)
    {
      if hasChecked {
        return AlreadyChecked;
      }

      hasChecked := true;
      checksRun := checksRun + 1;
      var enough := HasEnoughMemoryAllocated(recommendedMB, facts);
      match enough {
        case Err(e) =>
          outcome := CheckFailed(e);
        case Ok(true) =>
          outcome := EnoughMemory;
        case Ok(false) =>
          var script := new NotificationScript(instructionsThread, openThreadKey);
          scriptsAdded := scriptsAdded + 1;
          outcome := ScriptAdded(script);
      }
    }
  }

  /**
    The host loading game after game in one process: the check runs at most
    once, and at most one notification script is ever added.
   */
  method LoadGames(plugin: MWModPlugin, sessions: seq<HostFacts>) returns (outcomes: seq<GameLoadOutcome>)
    requires plugin.Valid()
    modifies plugin
    ensures plugin.Valid()
    ensures |outcomes| == |sessions|
    ensures forall i :: 0 <= i < |outcomes| && (i > 0 || old(plugin.hasChecked)) ==> outcomes[i] == AlreadyChecked
    ensures plugin.CurrentSettings() == old(plugin.CurrentSettings())
    ensures |sessions| > 0 ==> plugin.hasChecked
    ensures forall i :: 0 <= i < |outcomes| && outcomes[i].ScriptAdded? ==> plugin.scriptsAdded == 1
    ensures (forall i :: 0 <= i < |outcomes| ==> !outcomes[i].ScriptAdded?) ==> plugin.scriptsAdded == old(plugin.scriptsAdded)
  {
    outcomes := [];
    ghost var checkedBefore := plugin.hasChecked;
    var i := 0;
    while i < |sessions|
      invariant 0 <= i <= |sessions|
      invariant plugin.Valid()
      invariant |outcomes| == i
      invariant i > 0 || checkedBefore ==> plugin.hasChecked
      invariant forall j :: 0 <= j < i && (j > 0 || checkedBefore) ==> outcomes[j] == AlreadyChecked
      invariant plugin.CurrentSettings() == old(plugin.CurrentSettings())
      invariant forall j :: 0 <= j < i && outcomes[j].ScriptAdded? ==> plugin.scriptsAdded == 1
      invariant plugin.scriptsAdded == old(plugin.scriptsAdded) || exists j :: 0 <= j < i && outcomes[j].ScriptAdded?
    {
      ghost var checked := plugin.hasChecked;
      ghost var added := plugin.scriptsAdded;
      var outcome := plugin.OnGameLoad(sessions[i]);
      assert checked ==> outcome == AlreadyChecked;
      assert !outcome.ScriptAdded? ==> plugin.scriptsAdded == added;
      ghost var before := outcomes;
      outcomes := outcomes + [outcome];
      assert forall j :: 0 <= j < i ==> outcomes[j] == before[j];
      assert outcomes[i] == outcome;
      i := i + 1;
    }
  }
}
