# memwarn in Dafny

A model of the memory warning plugin `org.lazywizard.memwarn.MWModPlugin`
for a game's modding host, with proofs about the model. The plugin does
two things:

- **The memory check** (`hasEnoughMemoryAllocated`). On a HotSpot VM it
  looks for the first launch argument that, lower-cased and trimmed,
  starts with `-xmx`. It parses that argument's size, converts it to
  megabytes by its unit letter and compares it with the recommended size.
  On any other VM it compares `Runtime.maxMemory()` in megabytes with 80%
  of the recommended size.
- **The notification script** (`MWNotificationScript`). The first game
  load in a process runs the check. If memory is short, it adds a script
  that the host calls once per frame. The script waits one second of
  frames where the player can see messages, then shows the warning. If an
  instructions thread is configured, it also offers a shortcut key that
  opens that forum thread in a browser.

Modules, one per concern:

- `Wrappers` (`wrappers.dfy`): `Option` and `Result`.
- `JavaLang` (`java_lang.dfy`): the Java semantics the code depends on.
  This covers `int` and `long` ranges, narrowing casts that wrap around,
  and division that truncates toward zero. It also covers `toLowerCase`,
  `trim`, `startsWith`, `contains`, and `Integer.parseInt` with its inverse
  `Integer.toString`.
- `MemoryCheck` (`memory_check.dfy`): the decision as specification
  functions (`CheckMemory` and the functions it uses). It also holds
  `HasEnoughMemoryAllocated`, the Java method's loop with its early
  returns, proved equal to `CheckMemory`. The Java method reads three
  host facts: the `java.vm.name` property, `Runtime.maxMemory()` and the
  JVM input arguments. Here they are the parameter `HostFacts`. A thrown
  `StringIndexOutOfBoundsException` or `NumberFormatException` becomes an
  `Err` result.
- `Notification` (`notification.dfy`): one `advance` call as the
  transition function `Step`, and the host's frame loop as `Run`. The
  class `NotificationScript` has the three Java fields, and its `Advance`
  method is proved to follow `Step`. The host queries are inputs of a
  `Frame`: dialog showing, new-game setup, key down, and how the attempt
  to open the browser ended (`Browse`). Messages, the browser launch and
  an exception leaving `advance` are outputs (`Effect`).
- `ModPlugin` (`mod_plugin.dfy`): the settings with their defaults, and the
  class `MWModPlugin`, whose fields stand for the Java static fields.
  Ghost counters, incremented each time a check runs and each time a
  script is added, are bounded by one in `Valid()`, which every method
  keeps: the process runs the check at most once and adds at most one
  script.

Two details of the code that are easy to misread, and that the model keeps:

- The whole argument is lower-cased before the unit letter is read, so
  `-Xmx2G` means gigabytes.
- On every frame the guard is checked before the timer is decremented, so
  a guarded frame does not count down.

## Model

| member | source | states |
|---|---|---|
| `JavaLang.Wrap32` | org/lazywizard/memwarn/MWModPlugin.java:48 | the `(int)` cast keeps the value modulo 2^32 and changes nothing in `int` range |
| `JavaLang.TruncDiv` | org/lazywizard/memwarn/MWModPlugin.java:74 | Java `/` by a positive divisor truncates toward zero (bounds for both signs) |
| `JavaLang.Trim` | org/lazywizard/memwarn/MWModPlugin.java:60 | `trim()` leaves no character at or below U+0020 at either end, is never longer, and keeps an already trimmed string |
| `JavaLang.TrimSlice` | org/lazywizard/memwarn/MWModPlugin.java:60 | `trim()` keeps a slice of its input, and everything cut from either end is at or below U+0020 |
| `JavaLang.LowerChar` | org/lazywizard/memwarn/MWModPlugin.java:44 | only `A`-`Z` change, each to its lower-case letter, and the result is never upper case |
| `JavaLang.ToLower` | org/lazywizard/memwarn/MWModPlugin.java:44 | no contract of its own: `LowerChar` at every position; its properties are `LowerCaseIdempotent` and `LowerCaseUnchanged` |
| `JavaLang.LowerCaseIdempotent` | org/lazywizard/memwarn/MWModPlugin.java:60 | `toLowerCase()` keeps the length, leaves no upper-case letter and changes nothing when applied again |
| `JavaLang.LowerCaseUnchanged` | org/lazywizard/memwarn/MWModPlugin.java:60 | a string without upper-case letters is its own lower case |
| `JavaLang.StartsWith` | org/lazywizard/memwarn/MWModPlugin.java:61 | no contract of its own: the first `|prefix|` characters are `prefix` |
| `JavaLang.Contains` | org/lazywizard/memwarn/MWModPlugin.java:44 | `contains(t)` is true exactly when `t` occurs at some position |
| `JavaLang.ParseInt` | org/lazywizard/memwarn/MWModPlugin.java:67 | `Integer.parseInt` accepts only an optional `+` or `-` followed by at least one digit; the value is the digits' decimal value, negated after `-`, and the string is rejected exactly when that value does not fit an `int` |
| `JavaLang.ParseDecimal` | org/lazywizard/memwarn/MWModPlugin.java:67 | `parseInt(Integer.toString(n)) == n` for every `int` |
| `MemoryCheck.IsHotSpot` | org/lazywizard/memwarn/MWModPlugin.java:43-44 | no contract of its own: the VM name is present and its lower case contains `hotspot`; `HotSpotNames` states which names select the branch |
| `MemoryCheck.HotSpotNames` | org/lazywizard/memwarn/MWModPlugin.java:43-44 | any name containing `HotSpot`, such as `Java HotSpot(TM) 64-Bit Server VM`, selects the HotSpot branch; a missing name does not |
| `MemoryCheck.AllocatableMB` | org/lazywizard/memwarn/MWModPlugin.java:48 | for a maximum whose megabyte count fits an `int`, the result is the number of whole megabytes in it |
| `MemoryCheck.FallbackSufficient` | org/lazywizard/memwarn/MWModPlugin.java:48-51 | no contract of its own: allocatable megabytes at least the threshold; `FallbackBoundary` states it in bytes |
| `MemoryCheck.Normalize` | org/lazywizard/memwarn/MWModPlugin.java:60 | no contract of its own: `trim()` of `toLowerCase()`; its properties are `NormalizeIdempotent` |
| `MemoryCheck.NormalizeIdempotent` | org/lazywizard/memwarn/MWModPlugin.java:60 | a normalized argument has no upper-case letter and untrimmable ends, and normalizing it again changes nothing |
| `MemoryCheck.Threshold` | org/lazywizard/memwarn/MWModPlugin.java:49 | the fallback threshold is 4/5 of the recommendation, truncated toward zero |
| `MemoryCheck.FirstXmx` | org/lazywizard/memwarn/MWModPlugin.java:58-64 | finds the first argument that normalizes to an `-xmx` prefix; `None` only when no argument does |
| `MemoryCheck.ToMegabytes` | org/lazywizard/memwarn/MWModPlugin.java:70-80 | `k` gives the truncated quotient by 1024; `g` gives value*1024 modulo 2^32, exact when it fits; any other letter leaves the value |
| `MemoryCheck.ParseXmx` | org/lazywizard/memwarn/MWModPlugin.java:67-68 | a bare `-xmx` is a substring error; success needs a body of at least one character plus the unit |
| `MemoryCheck.HotSpotSufficient` | org/lazywizard/memwarn/MWModPlugin.java:58-90 | no `-xmx` argument gives `false`; an error needs a first `-xmx` argument |
| `MemoryCheck.CheckMemory` | org/lazywizard/memwarn/MWModPlugin.java:36-91 | a non-HotSpot VM never fails; any failure comes from a first `-xmx` argument |
| `MemoryCheck.HasEnoughMemoryAllocated` | org/lazywizard/memwarn/MWModPlugin.java:36-91 | the scan with early returns computes exactly `CheckMemory` |
| `MemoryCheck.FirstXmxFinds` | org/lazywizard/memwarn/MWModPlugin.java:58-64 | the first `-xmx` argument is unique: the scan stops at it |
| `MemoryCheck.FirstFlagDecides` | org/lazywizard/memwarn/MWModPlugin.java:58-85 | later arguments never matter; the first `-xmx` argument alone gives the same result as the whole list |
| `MemoryCheck.OtherArgumentsIgnored` | org/lazywizard/memwarn/MWModPlugin.java:58-64 | arguments that are not `-xmx` flags, put in front, change nothing |
| `MemoryCheck.ParseWellFormedFlag` | org/lazywizard/memwarn/MWModPlugin.java:67-80 | `-xmx<n><unit>` parses to `n` converted by its unit |
| `MemoryCheck.ParseFlagParts` | org/lazywizard/memwarn/MWModPlugin.java:67-80 | `-xmx<body><unit>` gives `parseInt(body)` converted by the unit, or the number-format error naming the body |
| `MemoryCheck.FlagDecision` | org/lazywizard/memwarn/MWModPlugin.java:67-84 | on HotSpot, when the first flag's body parses to `n` in any accepted form, the answer is exactly `convert(n, unit) >= recommended`, no slack |
| `MemoryCheck.BareFlagFails` | org/lazywizard/memwarn/MWModPlugin.java:67 | a first flag `-xmx` with nothing after it fails instead of answering |
| `MemoryCheck.MalformedFlagFails` | org/lazywizard/memwarn/MWModPlugin.java:67 | a first flag whose body is not an `int` fails with a number-format error naming that body |
| `MemoryCheck.CaseInsensitive` | org/lazywizard/memwarn/MWModPlugin.java:60 | arguments equal after lower-casing give equal results, so `-Xmx2G` is `-xmx2g` |
| `MemoryCheck.FallbackIgnoresArguments` | org/lazywizard/memwarn/MWModPlugin.java:43-52 | without HotSpot the result is the fallback comparison, whatever the arguments |
| `MemoryCheck.FallbackBoundary` | org/lazywizard/memwarn/MWModPlugin.java:48-52 | for sizes whose megabyte count fits an `int`, sufficient exactly when the bytes reach threshold*1048576 |
| `MemoryCheck.UnlimitedMaxMemory` | org/lazywizard/memwarn/MWModPlugin.java:48 | `maxMemory() == Long.MAX_VALUE` casts to -1 MB and gives `false` |
| `MemoryCheck.UnsuffixedFlagExample` | org/lazywizard/memwarn/MWModPlugin.java:67-80 | `-xmx2048` reads as 204 MB, because the last digit is taken as the unit |
| `MemoryCheck.MegabyteFlagExample` | org/lazywizard/memwarn/MWModPlugin.java:67-84 | `-xmx512m` against 600 is `false` |
| `MemoryCheck.UpperCaseGigabyteFlagExample` | org/lazywizard/memwarn/MWModPlugin.java:60-84 | `-Xmx2G` against 2048 is `true` |
| `MemoryCheck.PaddedFlagExample` | org/lazywizard/memwarn/MWModPlugin.java:67-84 | `-xmx0512m` against 512 is `true`: a leading zero is accepted |
| `MemoryCheck.SignedFlagExample` | org/lazywizard/memwarn/MWModPlugin.java:60-84 | `-Xmx+512M` against 513 is `false`: a plus sign and an upper-case unit are accepted |
| `MemoryCheck.KilobyteFlagParses` | org/lazywizard/memwarn/MWModPlugin.java:67-75 | `-xmx1048576k` parses to 1024 MB |
| `MemoryCheck.KilobyteFlagExample` | org/lazywizard/memwarn/MWModPlugin.java:67-84 | `-xmx1048576k` against 1024 is `true` |
| `MemoryCheck.BareFlagExample` | org/lazywizard/memwarn/MWModPlugin.java:60-67 | `" -XMX "` normalizes to a bare `-xmx` and fails |
| `Notification.Step` | org/lazywizard/memwarn/MWModPlugin.java:127-182 | a finished script and a guarded frame change nothing; the flags never reset; the timer runs only on unguarded frames before the warning; the warning is shown exactly on the frame the timer reaches zero; without a thread the script is done on that frame; after the warning an unguarded frame finishes the script exactly when the key is down, and opens the thread; the warning frame shows the warning and, exactly when a thread is configured, the key prompt; the key frame tries to open the thread and then shows the failure message after a caught failure, or lets an uncaught exception escape with nothing shown; a frame that sets neither flag has no effect; the invariant is kept |
| `Notification.BrowseEffects` | org/lazywizard/memwarn/MWModPlugin.java:169-180 | the failure message appears exactly after a caught `IOException` or `URISyntaxException`; an escaping exception exactly after any other failure |
| `Notification.Run` | org/lazywizard/memwarn/MWModPlugin.java:127-182 | no contract of its own: the host calling `advance` once per frame; its properties are the lemmas below |
| `Notification.RunSplit` | org/lazywizard/memwarn/MWModPlugin.java:127-182 | running two stretches of frames one after the other gives the same state and the same effects, in order, as running them together |
| `Notification.RunMonotone` | org/lazywizard/memwarn/MWModPlugin.java:131-168 | over any run `hasWarned` stays set, a done script stays unchanged, and the invariant holds |
| `Notification.GuardedFramesChangeNothing` | org/lazywizard/memwarn/MWModPlugin.java:131-134 | a run of guarded frames leaves the script as it was and shows nothing |
| `Notification.WarningShownOnce` | org/lazywizard/memwarn/MWModPlugin.java:136-146 | over any run the warning is shown once if the run sets `hasWarned`, otherwise never |
| `Notification.TimerCountsUnguardedTime` | org/lazywizard/memwarn/MWModPlugin.java:137-142 | before the warning the timer has gone down by exactly the time of the unguarded frames |
| `Notification.KeyPressFinishes` | org/lazywizard/memwarn/MWModPlugin.java:166-181 | once warned, a run finishes the script exactly when some unguarded frame has the key down, browser or not |
| `Notification.HalfSecondFrames` | org/lazywizard/memwarn/MWModPlugin.java:137-160 | from the initial state, two 0.5 s frames warn on the second and not the first; done then exactly when no thread is configured |
| `Notification.NotificationScript.constructor` | org/lazywizard/memwarn/MWModPlugin.java:111-112 | a new script has 1 s to go, has not warned and is not done |
| `Notification.NotificationScript.IsDone` | org/lazywizard/memwarn/MWModPlugin.java:115-118 | reports `isDone`, which implies the warning was shown |
| `Notification.NotificationScript.Advance` | org/lazywizard/memwarn/MWModPlugin.java:127-182 | updates the fields and emits the effects exactly as `Step`, keeping the invariant |
| `ModPlugin.OptInt` | org/lazywizard/memwarn/MWModPlugin.java:31-33 | a missing or non-numeric key gives the default; an integral value is narrowed to `int` |
| `ModPlugin.LoadSettings` | org/lazywizard/memwarn/MWModPlugin.java:30-33 | each setting is read from its own key: a missing key gives its default, an `int` value is taken as it is |
| `ModPlugin.MissingKeysGiveDefaults` | org/lazywizard/memwarn/MWModPlugin.java:31-33 | without the keys the settings are 2048 MB, thread 0, key 41 |
| `ModPlugin.MWModPlugin.constructor` | org/lazywizard/memwarn/MWModPlugin.java:23-24 | a process starts unchecked, with zeroed settings |
| `ModPlugin.MWModPlugin.OnApplicationLoad` | org/lazywizard/memwarn/MWModPlugin.java:27-34 | the settings become those loaded from the file; nothing else changes |
| `ModPlugin.MWModPlugin.OnGameLoad` | org/lazywizard/memwarn/MWModPlugin.java:94-107 | a later call does nothing and runs no check; the first counts one check, returns normally without a script when the check answers `true`, adds one fresh initial script when it answers `false`, and reports the exception when the check fails |
| `ModPlugin.LoadGames` | org/lazywizard/memwarn/MWModPlugin.java:94-107 | over any sequence of game loads, only the first can act; after any load the process has checked; the settings do not change; a script is counted exactly when some load added one |

## Left out

- Host facts are parameters: `System.getProperty("java.vm.name")`, `Runtime.maxMemory()` and `ManagementFactory.getRuntimeMXBean().getInputArguments()`.
- Logging through the host logger has no effect on behaviour and is not modelled.
- Message texts, colours and `Keyboard.getKeyName` are not modelled. A message is its kind and the key code.
- `Desktop.getDesktop().browse` is an effect plus an input saying how it ended: opened, failed with an exception `advance` catches, or failed with one it does not catch. The exception's text is not modelled, nor what the host does with an exception that leaves `advance`.
- Host scheduling (`addTransientScript`, `runWhilePaused`, removing a done script) is not modelled. The host loop is `Run` over a sequence of frames.
- Reading `mem_settings.json` is not modelled. The loaded object is a map, and the loader's own failures are not modelled.
- `ModPlugin.OptInt`: fractional numbers and numeric strings are treated as non-numeric. Java's `optInt` would convert them.
- `MemoryCheck.Threshold`: models `(int) (recommended * .8f)` as the exact value 4/5 of the recommendation, truncated. IEEE single-precision rounding is not modelled.
- `Notification.Step`: the `float` timer and frame time are reals. Float rounding, NaN and infinities are not modelled.
- Strings are sequences of Unicode scalar values, not Java's UTF-16 code units. An argument that ends in a character outside the Basic Multilingual Plane (an emoji, say) has that whole character read as the unit in the model, where Java's `substring` splits it and `parseInt` throws a `NumberFormatException`.
- `toLowerCase` maps only the ASCII letters. Locale-dependent and non-ASCII case mappings are not modelled.
- `Integer.parseInt` here accepts only the ASCII digits `0`-`9`. Java also accepts other Unicode decimal digits.
- `Notification.NotificationScript.constructor`: the script keeps the thread id and key code it was created with. The Java inner class reads the static fields on every frame. Those fields are written only at application load, before any game load.
