/**
  The memory-sufficiency decision of `MWModPlugin.hasEnoughMemoryAllocated`.

  The host facts it reads (the `java.vm.name` property, `Runtime.maxMemory()`
  and the JVM's input arguments) are parameters, gathered in `HostFacts`.
  An exception the Java code would throw is an `Err` result.
 */
module MemoryCheck {
  import opened Wrappers
  import opened JavaLang

  const XMX_PREFIX: string := "-xmx"
  const HOTSPOT_MARKER: string := "hotspot"
  const BYTES_PER_MB: int := 1048576
  const LONG_MAX: Int64 := 0x7FFF_FFFF_FFFF_FFFF

  /** What the host runtime reports: VM name (Java `null` is `None`), max heap in bytes, launch arguments. */
  datatype HostFacts = HostFacts(vmName: Option<string>, maxMemoryBytes: Int64, inputArguments: seq<string>)

  /** The unchecked exceptions the flag parsing can raise. */
  datatype CheckError =
    | SubstringOutOfBounds(beginIndex: int, endIndex: int)  // StringIndexOutOfBoundsException
    | NumberFormat(input: string)                           // NumberFormatException

  // ---------------------------------------------------------------- which branch

  /** The VM name is present and, lower-cased, contains "hotspot". */
  predicate IsHotSpot(vmName: Option<string>) {
    vmName.Some? && Contains(ToLower(vmName.value), HOTSPOT_MARKER)
  }

  // ---------------------------------------------------------------- non-HotSpot fallback

  /** `(int) (RECOMMENDED_MEMORY_MB * .8f)`: 80% of the recommendation, truncated toward zero. */
  function Threshold(recommendedMB: Int32): (t: Int32)
    ensures 0 <= recommendedMB ==> 0 <= 5 * t <= 4 * recommendedMB < 5 * t + 5
    ensures recommendedMB < 0 ==> 5 * t - 5 < 4 * recommendedMB <= 5 * t <= 0
  {
    TruncDiv(4 * recommendedMB, 5)
  }

  /** `(int) (maxMemory / 1048576L) >= recommended`, with the narrowing cast of the long quotient. */
  function AllocatableMB(maxMemoryBytes: Int64): (mb: Int32)
    ensures 0 <= maxMemoryBytes < 0x8000_0000 * BYTES_PER_MB ==>
      0 <= mb * BYTES_PER_MB <= maxMemoryBytes < mb * BYTES_PER_MB + BYTES_PER_MB
  {
    Wrap32(TruncDiv(maxMemoryBytes, BYTES_PER_MB))
  }

  predicate FallbackSufficient(recommendedMB: Int32, maxMemoryBytes: Int64) {
    AllocatableMB(maxMemoryBytes) >= Threshold(recommendedMB)
  }

  // ---------------------------------------------------------------- HotSpot: the -Xmx flag

  /** `arg.toLowerCase().trim()` */
  function Normalize(arg: string): string {
    Trim(ToLower(arg))
  }

  /**
    A normalized argument has no upper-case letter and no character at or
    below the space at either end, so normalizing it again changes nothing.
   */
  lemma NormalizeIdempotent(arg: string)
    ensures forall i :: 0 <= i < |Normalize(arg)| ==> !IsUpper(Normalize(arg)[i])
    ensures Normalize(arg) != [] ==> !IsTrimmed(Normalize(arg)[0]) && !IsTrimmed(Normalize(arg)[|Normalize(arg)| - 1])
    ensures Normalize(Normalize(arg)) == Normalize(arg)
  {
    var lower := ToLower(arg);
    var r := Normalize(arg);
    LowerCaseIdempotent(arg);
    TrimSlice(lower);
    var a, b :| TrimmedOutside(lower, a, b) && r == lower[a..b];
    forall i | 0 <= i < |r| ensures !IsUpper(r[i]) {
      assert r[i] == lower[a + i];
    }
    LowerCaseUnchanged(r);
    assert Normalize(r) == Trim(r);
  }

  predicate IsXmxFlag(arg: string) {
    StartsWith(Normalize(arg), XMX_PREFIX)
  }

  /** `k` is the position of the first argument that is an -Xmx flag. */
  predicate IsFirstXmx(args: seq<string>, k: int) {
    0 <= k < |args| && IsXmxFlag(args[k]) && forall j :: 0 <= j < k ==> !IsXmxFlag(args[j])
  }

  /** The position of the first -Xmx flag, if any. */
  function FirstXmx(args: seq<string>): (r: Option<nat>)
    ensures r.Some? ==> IsFirstXmx(args, r.value)
    ensures r.None? ==> forall j :: 0 <= j < |args| ==> !IsXmxFlag(args[j])
    decreases |args|
  {
    if args == [] then None
    else if IsXmxFlag(args[0]) then Some(0)
    else match FirstXmx(args[1..])
      case None =>
        assert forall j | 0 <= j < |args| - 1 :: args[1..][j] == args[j + 1];
        None
      case Some(k) =>
        assert forall j | 0 <= j <= k :: args[1..][j] == args[j + 1];
        Some(k + 1)
  }

  /** The unit switch: `k` divides by 1024 (truncating), `g` multiplies by 1024 (in `int`), anything else is megabytes. */
  function ToMegabytes(value: Int32, unit: char): (mb: Int32)
    ensures unit == 'k' && 0 <= value ==> 0 <= mb * 1024 <= value < mb * 1024 + 1024
    ensures unit == 'k' && value < 0 ==> mb * 1024 - 1024 < value <= mb * 1024 <= 0
    ensures unit == 'g' ==> (mb - value * 1024) % 0x1_0000_0000 == 0
    ensures unit == 'g' && InInt32Range(value * 1024) ==> mb == value * 1024
    ensures unit != 'k' && unit != 'g' ==> mb == value
  {
    match unit
    case 'k' => TruncDiv(value, 1024)
    case 'g' => Wrap32(value * 1024)
    case _ => value
  }

  /**
    Parsing of a normalized flag: the last character is always taken as the
    unit, the characters between `-xmx` and it as an `int`.
   */
  function ParseXmx(flag: string): (r: Result<Int32, CheckError>)
    requires StartsWith(flag, XMX_PREFIX)
    ensures |flag| == 4 ==> r == Err(SubstringOutOfBounds(4, 3))
    ensures r.Ok? ==> |flag| >= 6
  {
    if |flag| - 1 < 4 then
      Err(SubstringOutOfBounds(4, |flag| - 1))
    else
      var body := flag[4..|flag| - 1];
      match ParseInt(body)
      case None => Err(NumberFormat(body))
      case Some(value) => Ok(ToMegabytes(value, flag[|flag| - 1]))
  }

  /** The HotSpot branch: the first -Xmx flag decides; without one the answer is `false`. */
  function HotSpotSufficient(recommendedMB: Int32, args: seq<string>): (r: Result<bool, CheckError>)
    ensures (forall j :: 0 <= j < |args| ==> !IsXmxFlag(args[j])) ==> r == Ok(false)
    ensures r.Err? ==> exists k :: IsFirstXmx(args, k)
  {
    match FirstXmx(args)
    case None => Ok(false)
    case Some(k) =>
      match ParseXmx(Normalize(args[k]))
      case Err(e) => Err(e)
      case Ok(mb) => Ok(mb >= recommendedMB)
  }

  /** `hasEnoughMemoryAllocated()` as a function of the recommendation and the host facts. */
  function CheckMemory(recommendedMB: Int32, facts: HostFacts): (r: Result<bool, CheckError>)
    ensures !IsHotSpot(facts.vmName) ==> r.Ok?
    ensures r.Err? ==> exists k :: IsFirstXmx(facts.inputArguments, k)
  {
    if !IsHotSpot(facts.vmName) then
      Ok(FallbackSufficient(recommendedMB, facts.maxMemoryBytes))
    else
      HotSpotSufficient(recommendedMB, facts.inputArguments)
  }

  /**
    The Java method, step by step: the scan over the input arguments returns
    at the first -Xmx flag; falling off the end of the list gives `false`.
   */
  method HasEnoughMemoryAllocated(recommendedMB: Int32, facts: HostFacts) returns (r: Result<bool, CheckError>)
    ensures r == CheckMemory(recommendedMB, facts)
  {
    var vmName := facts.vmName;
    if vmName.None? || !Contains(ToLower(vmName.value), HOTSPOT_MARKER) {
      var max := Wrap32(TruncDiv(facts.maxMemoryBytes, BYTES_PER_MB));
      var recommended := Threshold(recommendedMB);
      return Ok(max >= recommended);
    }

    var args := facts.inputArguments;
    var i := 0;
    while i < |args|
      invariant 0 <= i <= |args|
      invariant forall j :: 0 <= j < i ==> !IsXmxFlag(args[j])
    {
      var arg := Trim(ToLower(args[i]));
      if !StartsWith(arg, XMX_PREFIX) {
        i := i + 1;
        continue;
      }

      FirstXmxFinds(args, i);
      assert arg == Normalize(args[i]);
      if |arg| - 1 < 4 {
        return Err(SubstringOutOfBounds(4, |arg| - 1));
      }
      var body := arg[4..|arg| - 1];
      var parsed := ParseInt(body);
      if parsed.None? {
        return Err(NumberFormat(body));
      }
      var max: Int32 := parsed.value;
      var byteType := arg[|arg| - 1];
      if byteType == 'k' {
        max := TruncDiv(max, 1024);
      } else if byteType == 'g' {
        max := Wrap32(max * 1024);
      }
      assert ParseXmx(arg) == Ok(max);
      return Ok(max >= recommendedMB);
    }
    return Ok(false);
  }

  // ---------------------------------------------------------------- properties

  /** The first -Xmx flag is unique: `FirstXmx` finds exactly it. */
  lemma FirstXmxFinds(args: seq<string>, k: int)
    requires IsFirstXmx(args, k)
    ensures FirstXmx(args) == Some(k)
  {
  }

  /**
    Only the first -Xmx flag is consulted: what follows it never matters, and
    the flag alone gives the same answer as the whole list.
   */
  lemma FirstFlagDecides(recommendedMB: Int32, args: seq<string>, k: int, rest: seq<string>)
    requires IsFirstXmx(args, k)
    ensures HotSpotSufficient(recommendedMB, args[..k + 1] + rest) == HotSpotSufficient(recommendedMB, args)
    ensures HotSpotSufficient(recommendedMB, [args[k]]) == HotSpotSufficient(recommendedMB, args)
  {
    var longer := args[..k + 1] + rest;
    assert forall j :: 0 <= j <= k ==> longer[j] == args[j];
    assert IsFirstXmx(longer, k);
    FirstXmxFinds(longer, k);
    FirstXmxFinds(args, k);
    FirstXmxFinds([args[k]], 0);
  }

  /** Arguments that are not -Xmx flags may be added in front without changing the result. */
  lemma OtherArgumentsIgnored(recommendedMB: Int32, others: seq<string>, args: seq<string>)
    requires forall j :: 0 <= j < |others| ==> !IsXmxFlag(others[j])
    ensures HotSpotSufficient(recommendedMB, others + args) == HotSpotSufficient(recommendedMB, args)
  {
    var all := others + args;
    match FirstXmx(args)
    case None =>
      assert forall j :: 0 <= j < |all| ==> !IsXmxFlag(all[j]) by {
        forall j | 0 <= j < |all| ensures !IsXmxFlag(all[j]) {
          if j >= |others| {
            assert all[j] == args[j - |others|];
          }
        }
      }
    case Some(k) =>
      assert all[|others| + k] == args[k];
      assert IsFirstXmx(all, |others| + k) by {
        forall j | 0 <= j < |others| + k ensures !IsXmxFlag(all[j]) {
          if j >= |others| {
            assert all[j] == args[j - |others|];
          }
        }
      }
      FirstXmxFinds(all, |others| + k);
  }

  /** A well-formed flag `-xmx<n><unit>` is read back as `n` converted by its unit. */
  lemma ParseWellFormedFlag(n: Int32, unit: char)
    ensures StartsWith(XMX_PREFIX + Decimal(n) + [unit], XMX_PREFIX)
    ensures ParseXmx(XMX_PREFIX + Decimal(n) + [unit]) == Ok(ToMegabytes(n, unit))
  {
    var flag := XMX_PREFIX + Decimal(n) + [unit];
    assert flag[..4] == XMX_PREFIX;
    assert flag[4..|flag| - 1] == Decimal(n);
    ParseDecimal(n);
  }

  /**
    A flag `-xmx<body><unit>` is decided by `parseInt(body)` alone: its value
    converted by the unit, or the number-format error naming the body.
   */
  lemma ParseFlagParts(body: string, unit: char)
    ensures StartsWith(XMX_PREFIX + body + [unit], XMX_PREFIX)
    ensures ParseXmx(XMX_PREFIX + body + [unit]) ==
      match ParseInt(body)
      case None => Err(NumberFormat(body))
      case Some(n) => Ok(ToMegabytes(n, unit))
  {
    var flag := XMX_PREFIX + body + [unit];
    assert flag[..4] == XMX_PREFIX;
    assert flag[4..|flag| - 1] == body;
    assert flag[|flag| - 1] == unit;
  }

  /** On HotSpot the answer is exactly `parsedMB >= recommended`, with no slack, whatever form the number takes. */
  lemma FlagDecision(recommendedMB: Int32, args: seq<string>, k: int, body: string, n: Int32, unit: char)
    requires IsFirstXmx(args, k)
    requires Normalize(args[k]) == XMX_PREFIX + body + [unit]
    requires ParseInt(body) == Some(n)
    ensures HotSpotSufficient(recommendedMB, args) == Ok(ToMegabytes(n, unit) >= recommendedMB)
  {
    FirstXmxFinds(args, k);
    ParseFlagParts(body, unit);
  }

  /** A bare `-xmx` fails on the substring call rather than answering. */
  lemma BareFlagFails(recommendedMB: Int32, args: seq<string>, k: int)
    requires IsFirstXmx(args, k) && Normalize(args[k]) == XMX_PREFIX
    ensures HotSpotSufficient(recommendedMB, args) == Err(SubstringOutOfBounds(4, 3))
  {
  }

  /** A first flag whose body is not an `int` fails with a number-format error. */
  lemma MalformedFlagFails(recommendedMB: Int32, args: seq<string>, k: int)
    requires IsFirstXmx(args, k)
    requires |Normalize(args[k])| > 4
    requires ParseInt(Normalize(args[k])[4..|Normalize(args[k])| - 1]) == None
    ensures HotSpotSufficient(recommendedMB, args) == Err(NumberFormat(Normalize(args[k])[4..|Normalize(args[k])| - 1]))
  {
  }

  /** The whole argument is lower-cased first, so the case of the flag and of its unit never matters. */
  lemma CaseInsensitive(recommendedMB: Int32, a: seq<string>, b: seq<string>)
    requires |a| == |b|
    requires forall j :: 0 <= j < |a| ==> ToLower(a[j]) == ToLower(b[j])
    ensures HotSpotSufficient(recommendedMB, a) == HotSpotSufficient(recommendedMB, b)
  {
    assert forall j :: 0 <= j < |a| ==> Normalize(a[j]) == Normalize(b[j]);
    match FirstXmx(a)
    case None =>
    case Some(k) =>
      assert IsFirstXmx(b, k);
      FirstXmxFinds(b, k);
  }

  /** The non-HotSpot branch never looks at the launch arguments and never fails. */
  lemma FallbackIgnoresArguments(recommendedMB: Int32, vmName: Option<string>, maxMemoryBytes: Int64, a: seq<string>, b: seq<string>)
    requires !IsHotSpot(vmName)
    ensures CheckMemory(recommendedMB, HostFacts(vmName, maxMemoryBytes, a)) == Ok(FallbackSufficient(recommendedMB, maxMemoryBytes))
    ensures CheckMemory(recommendedMB, HostFacts(vmName, maxMemoryBytes, a)) == CheckMemory(recommendedMB, HostFacts(vmName, maxMemoryBytes, b))
  {
  }

  /**
    In the fallback branch, with a non-negative recommendation and a maximum
    whose megabyte count fits an `int`, memory is sufficient exactly when the
    maximum reaches 80% of the recommendation, counted in whole megabytes.
   */
  lemma FallbackBoundary(recommendedMB: Int32, maxMemoryBytes: Int64)
    requires 0 <= recommendedMB
    requires 0 <= maxMemoryBytes < 0x8000_0000 * BYTES_PER_MB
    ensures FallbackSufficient(recommendedMB, maxMemoryBytes) <==> maxMemoryBytes >= Threshold(recommendedMB) * BYTES_PER_MB
  {
  }

  /**
    `Runtime.maxMemory()` reports `Long.MAX_VALUE` when there is no limit; the
    narrowing cast turns that into -1 MB, so the fallback branch answers
    `false` for any non-negative recommendation.
   */
  lemma UnlimitedMaxMemory(recommendedMB: Int32)
    requires 0 <= recommendedMB
    ensures AllocatableMB(LONG_MAX) == -1
    ensures !FallbackSufficient(recommendedMB, LONG_MAX)
  {
  }

  /** Without a unit letter the last digit is still dropped: `-xmx2048` reads as 204 MB. */
  lemma UnsuffixedFlagExample()
    ensures ParseXmx("-xmx2048") == Ok(204)
  {
    assert Decimal(204) == "204";
    assert "-xmx2048" == XMX_PREFIX + Decimal(204) + ['8'];
    ParseWellFormedFlag(204, '8');
  }

  lemma MegabyteFlagExample()
    ensures HotSpotSufficient(600, ["-xmx512m"]) == Ok(false)
  {
    assert Decimal(512) == "512";
    ParseDecimal(512);
    assert Normalize("-xmx512m") == XMX_PREFIX + "512" + ['m'];
    FlagDecision(600, ["-xmx512m"], 0, "512", 512, 'm');
  }

  lemma UpperCaseGigabyteFlagExample()
    ensures HotSpotSufficient(2048, ["-Xmx2G"]) == Ok(true)
  {
    assert ParseInt("2") == Some(2);
    assert Normalize("-Xmx2G") == XMX_PREFIX + "2" + ['g'];
    FlagDecision(2048, ["-Xmx2G"], 0, "2", 2, 'g');
  }

  /** `parseInt` accepts a leading zero: `-xmx0512m` reads as 512 MB. */
  lemma PaddedFlagExample()
    ensures HotSpotSufficient(512, ["-xmx0512m"]) == Ok(true)
  {
    assert DigitsValue("0") == 0;
    assert DigitsValue("05") == 5 by { assert "05"[..1] == "0"; }
    assert DigitsValue("051") == 51 by { assert "051"[..2] == "05"; }
    assert DigitsValue("0512") == 512 by { assert "0512"[..3] == "051"; }
    assert ParseInt("0512") == Some(512);
    LowerCaseUnchanged("-xmx0512m");
    assert Normalize("-xmx0512m") == XMX_PREFIX + "0512" + ['m'];
    FlagDecision(512, ["-xmx0512m"], 0, "0512", 512, 'm');
  }

  /** `parseInt` accepts a plus sign, and the unit's case does not matter: `-Xmx+512M` reads as 512 MB. */
  lemma SignedFlagExample()
    ensures HotSpotSufficient(513, ["-Xmx+512M"]) == Ok(false)
  {
    assert DigitsValue("512") == 512 by {
      assert "51"[..1] == "5";
      assert "512"[..2] == "51";
    }
    assert "+512"[1..] == "512";
    assert ParseInt("+512") == Some(512);
    var arg := "-Xmx+512M";
    assert forall i :: 0 <= i < |arg| ==> ToLower(arg)[i] == LowerChar(arg[i]);
    assert ToLower(arg) == "-xmx+512m";
    assert Normalize(arg) == XMX_PREFIX + "+512" + ['m'];
    FlagDecision(513, [arg], 0, "+512", 512, 'm');
  }

  /**
    Any VM name with "HotSpot" in it, in any case, such as
    "Java HotSpot(TM) 64-Bit Server VM", selects the HotSpot branch; a
    missing name never does.
   */
  lemma HotSpotNames(prefix: string, suffix: string)
    ensures IsHotSpot(Some(prefix + "HotSpot" + suffix))
    ensures !IsHotSpot(None)
  {
    var name := prefix + "HotSpot" + suffix;
    var lower := ToLower(name);
    var p := |prefix|;
    assert forall i :: 0 <= i < 7 ==> name[p + i] == "HotSpot"[i];
    assert forall i :: 0 <= i < 7 ==> lower[p + i] == LowerChar("HotSpot"[i]);
    assert lower[p..p + 7] == HOTSPOT_MARKER;
    assert OccursAt(lower, HOTSPOT_MARKER, p);
  }

  lemma KilobyteFlagParses()
    ensures ParseXmx("-xmx1048576k") == Ok(1024)
  {
    assert NatDigits(1) == "1";
    assert NatDigits(10) == NatDigits(1) + ['0'];
    assert NatDigits(104) == NatDigits(10) + ['4'];
    assert NatDigits(1048) == NatDigits(104) + ['8'];
    assert NatDigits(10485) == NatDigits(1048) + ['5'];
    assert NatDigits(104857) == NatDigits(10485) + ['7'];
    assert NatDigits(1048576) == NatDigits(104857) + ['6'];
    assert "-xmx1048576k" == XMX_PREFIX + Decimal(1048576) + ['k'];
    ParseWellFormedFlag(1048576, 'k');
  }

  lemma KilobyteFlagExample()
    ensures HotSpotSufficient(1024, ["-xmx1048576k"]) == Ok(true)
  {
    LowerCaseUnchanged("-xmx1048576k");
    assert Normalize("-xmx1048576k") == "-xmx1048576k";
    KilobyteFlagParses();
    FirstXmxFinds(["-xmx1048576k"], 0);
  }

  lemma BareFlagExample()
    ensures HotSpotSufficient(2048, [" -XMX "]) == Err(SubstringOutOfBounds(4, 3))
  {
    assert Normalize(" -XMX ") == "-xmx";
    BareFlagFails(2048, [" -XMX "], 0);
  }
}
