/**
  Hardware description: the CPU brand, installed memory, disk models, GPU,
  motherboard and vendor, gathered from the system library and from the
  `key=value` text printed by `wmic ... /value`, with a fixed fallback for
  every field that cannot be read.
*/
module DeviceInfo {
  import opened Wrappers
  import opened Numeric
  import opened Text

  datatype HardwareInfo = HardwareInfo(
    cpuModel: string,
    gpuModel: string,
    ramSpec: string,
    diskModels: seq<string>,
    motherboard: string,
    deviceBrand: string)

  /** What spawning `wmic` gives back: whether it exited successfully, and its standard output as text. */
  datatype WmicOutput = WmicOutput(success: bool, stdout: string)

  /** `run_wmic`: the output of a successful `wmic` run on Windows; `None`
      elsewhere, when it cannot be spawned, or when it fails. */
  function RunWmic(windows: bool, args: seq<string>, spawn: seq<string> -> Option<WmicOutput>): (r: Option<string>)
    ensures r.Some? <==> windows && spawn(args).Some? && spawn(args).value.success
    ensures r.Some? ==> r.value == spawn(args).value.stdout
  {
    if !windows then None
    else match spawn(args)
      case None => None
      case Some(output) => if output.success then Some(output.stdout) else None
  }

  const DiskModelArgs := ["diskdrive", "get", "model", "/value"]
  const GpuArgs := ["path", "win32_VideoController", "get", "Name", "/value"]
  const BoardArgs := ["baseboard", "get", "product", "/value"]
  const VendorArgs := ["computersystem", "get", "manufacturer", "/value"]

  /* ---------------- disk_models ---------------- */

  const ModelPrefix := "Model="

  /** The model a line names: the trimmed rest of a `Model=` line, when not blank. */
  function ModelValue(line: string): (r: Option<string>)
    ensures r.Some? ==> StartsWith(line, ModelPrefix) && r.value != []
    ensures r.Some? ==> r.value == Trim(line[|ModelPrefix|..])
    ensures StartsWith(line, ModelPrefix) && !IsBlank(line[|ModelPrefix|..]) ==> r.Some?
  {
    match StripPrefix(line, ModelPrefix)
    case None => None
    case Some(v) =>
      TrimEmptyIffBlank(v);
      if Trim(v) != [] then Some(Trim(v)) else None
  }

  /** The values `pick` finds in `lines`, in line order (a `filter_map`). */
  function Picked(lines: seq<string>, pick: string -> Option<string>): (p: seq<string>)
    ensures |p| <= |lines|
  {
    if lines == [] then []
    else
      var last := lines[|lines| - 1];
      Picked(lines[..|lines| - 1], pick) + (if pick(last).Some? then [pick(last).value] else [])
  }

  /** Every line on which `pick` finds a value contributes it. */
  lemma {:induction false} PickedComplete(lines: seq<string>, pick: string -> Option<string>)
    ensures forall i :: 0 <= i < |lines| && pick(lines[i]).Some? ==> pick(lines[i]).value in Picked(lines, pick)
  {
    if lines != [] {
      var init := lines[..|lines| - 1];
      PickedComplete(init, pick);
      forall i | 0 <= i < |lines| && pick(lines[i]).Some?
        ensures pick(lines[i]).value in Picked(lines, pick)
      {
        if i < |init| {
          assert init[i] == lines[i];
        }
      }
    }
  }

  /** Every collected value was found on some line. */
  lemma {:induction false} PickedSound(lines: seq<string>, pick: string -> Option<string>)
    ensures forall v :: v in Picked(lines, pick) ==> exists i :: 0 <= i < |lines| && pick(lines[i]) == Some(v)
  {
    if lines != [] {
      var init := lines[..|lines| - 1];
      PickedSound(init, pick);
      forall v | v in Picked(lines, pick)
        ensures exists i :: 0 <= i < |lines| && pick(lines[i]) == Some(v)
      {
        if v in Picked(init, pick) {
          var i :| 0 <= i < |init| && pick(init[i]) == Some(v);
          assert lines[i] == init[i];
        } else {
          assert pick(lines[|lines| - 1]) == Some(v);
        }
      }
    }
  }

  /** Scanning one more line adds its value, if it offers one. */
  lemma PickedStep(lines: seq<string>, i: nat, pick: string -> Option<string>)
    requires i < |lines|
    ensures Picked(lines[..i + 1], pick) == Picked(lines[..i], pick) + (if pick(lines[i]).Some? then [pick(lines[i]).value] else [])
  {
    assert lines[..i + 1][..i] == lines[..i];
  }

  /** Collection keeps line order: the values of two blocks of lines are
      those of the first block followed by those of the second. */
  lemma {:induction false} PickedAppend(a: seq<string>, b: seq<string>, pick: string -> Option<string>)
    ensures Picked(a + b, pick) == Picked(a, pick) + Picked(b, pick)
    decreases |b|
  {
    if b == [] {
      assert a + b == a;
    } else {
      assert (a + b)[..|a + b| - 1] == a + b[..|b| - 1];
      PickedAppend(a, b[..|b| - 1], pick);
    }
  }

  /** The result for one `wmic` text: the models of its lines, `None` when no line names one. */
  function DiskModelsOf(raw: string): (r: Option<seq<string>>)
    ensures r.None? <==> forall i :: 0 <= i < |Lines(raw)| ==> ModelValue(Lines(raw)[i]).None?
    ensures r.Some? ==> r.value != [] && r.value == Picked(Lines(raw), ModelValue)
    ensures r.Some? ==> forall v :: v in r.value ==> v != [] && exists i :: 0 <= i < |Lines(raw)| && ModelValue(Lines(raw)[i]) == Some(v)
  {
    var lines := Lines(raw);
    var out := Picked(lines, ModelValue);
    PickedComplete(lines, ModelValue);
    PickedSound(lines, ModelValue);
    if out == [] then None
    else
      assert out[0] in out;
      Some(out)
  }

  /** `disk_models`: the model of every `Model=` line of the `wmic diskdrive` output. */
  method DiskModels(windows: bool, spawn: seq<string> -> Option<WmicOutput>) returns (r: Option<seq<string>>)
    ensures r == match RunWmic(windows, DiskModelArgs, spawn)
      case None => None
      case Some(raw) => DiskModelsOf(raw)
  {
    var raw := RunWmic(windows, DiskModelArgs, spawn);
    if raw.None? {
      return None;
    }
    var lines := Lines(raw.value);
    var out := [];
    for i := 0 to |lines|
      invariant out == Picked(lines[..i], ModelValue)
    {
      PickedStep(lines, i, ModelValue);
      var v := StripPrefix(lines[i], ModelPrefix);
      if v.Some? {
        var item := Trim(v.value);
        if item != [] {
          out := out + [item];
        }
      }
    }
    assert lines[..|lines|] == lines;
    if out == [] {
      r := None;
    } else {
      r := Some(out);
    }
  }

  /* ---------------- first_wmic_value ---------------- */

  /** The value a line offers: the trimmed text after its first `=`, when not blank. */
  function WmicValue(line: string): (r: Option<string>)
    ensures r.Some? ==> '=' in line && r.value != []
    ensures '=' !in line ==> r.None?
  {
    match SplitOnce(line, '=')
    case None => None
    case Some((_, v)) => if Trim(v) != [] then Some(Trim(v)) else None
  }

  /** A value is offered without surrounding white space, and a line whose
      text after the first `=` is blank offers none. */
  lemma WmicValueTrimmed(line: string)
    ensures WmicValue(line).Some? ==> Trim(WmicValue(line).value) == WmicValue(line).value
    ensures '=' in line && IsBlank(SplitOnce(line, '=').value.1) ==> WmicValue(line).None?
  {
    match SplitOnce(line, '=')
    case None =>
    case Some((_, v)) =>
      TrimIdempotent(v);
      TrimEmptyIffBlank(v);
  }

  /** The index of the first line on which `pick` finds a value, or `|lines|` when there is none. */
  function FirstPicked(lines: seq<string>, pick: string -> Option<string>): (k: nat)
    ensures k <= |lines|
    ensures forall j :: 0 <= j < k ==> pick(lines[j]).None?
    ensures k < |lines| ==> pick(lines[k]).Some?
  {
    if lines == [] then 0
    else if pick(lines[0]).Some? then 0
    else 1 + FirstPicked(lines[1..], pick)
  }

  /** A `key=value` line offers its value trimmed, split at the first `=`
      so that later `=` signs stay in the value; a blank value is skipped. */
  lemma WmicValueOfPair(key: string, value: string)
    requires '=' !in key
    ensures WmicValue(key + "=" + value) == if IsBlank(value) then None else Some(Trim(value))
  {
    SplitOnceFirst(key, value, '=');
    TrimEmptyIffBlank(value);
  }

  /** What `pick` finds on the first line where it finds anything. */
  function FirstOf(lines: seq<string>, pick: string -> Option<string>): (r: Option<string>)
    ensures r.None? <==> forall j :: 0 <= j < |lines| ==> pick(lines[j]).None?
    ensures r.Some? ==> exists k :: 0 <= k < |lines| && pick(lines[k]) == r
  {
    var k := FirstPicked(lines, pick);
    if k < |lines| then pick(lines[k]) else None
  }

  /** The value of the first line that offers one, `None` when no line does. */
  function FirstValue(lines: seq<string>): (r: Option<string>)
    ensures r.None? <==> forall j :: 0 <= j < |lines| ==> WmicValue(lines[j]).None?
    ensures r.Some? ==> r.value != []
  {
    FirstOf(lines, WmicValue)
  }

  /** `first_wmic_value`: scans the lines and returns at the first one that offers a value. */
  method FirstWmicValue(args: seq<string>, windows: bool, spawn: seq<string> -> Option<WmicOutput>)
    returns (r: Option<string>)
    ensures r == match RunWmic(windows, args, spawn)
      case None => None
      case Some(raw) => FirstValue(Lines(raw))
  {
    var raw := RunWmic(windows, args, spawn);
    if raw.None? {
      return None;
    }
    r := FirstIn(Lines(raw.value), WmicValue);
  }

  /** The line loop of `first_wmic_value`, with its early return. */
  method FirstIn(lines: seq<string>, pick: string -> Option<string>) returns (r: Option<string>)
    ensures r == FirstOf(lines, pick)
  {
    for i := 0 to |lines|
      invariant forall j :: 0 <= j < i ==> pick(lines[j]).None?
    {
      var found := pick(lines[i]);
      if found.Some? {
        FirstIsEarliest(lines, i, pick);
        return found;
      }
    }
    return None;
  }

  /** A line with a value preceded only by lines without one is the first. */
  lemma FirstIsEarliest(lines: seq<string>, i: nat, pick: string -> Option<string>)
    requires i < |lines| && pick(lines[i]).Some?
    requires forall j :: 0 <= j < i ==> pick(lines[j]).None?
    ensures FirstPicked(lines, pick) == i
  {
  }

  /* ---------------- collect_hardware_info ---------------- */

  const UnknownCpu := "Unknown CPU"
  const UnknownDisk := "Unknown disk"
  const NoGpu := "N/A"
  const UnknownBoard := "Unknown motherboard"
  const UnknownVendor := "Unknown vendor"
  const BytesPerGiB: real := 1073741824.0

  /** The brand of the first CPU, or "Unknown CPU" when there is none or it is blank. */
  function CpuModel(brands: seq<string>): (r: string)
    ensures brands == [] || IsBlank(brands[0]) ==> r == UnknownCpu
    ensures brands != [] && !IsBlank(brands[0]) ==> r == brands[0]
  {
    if brands == [] then UnknownCpu
    else
      TrimEmptyIffBlank(brands[0]);
      if Trim(brands[0]) != [] then brands[0] else UnknownCpu
  }

  /** Installed memory in GiB, never reported below 1. */
  function MemoryGib(totalMemory: U64): (g: real)
    ensures g >= 1.0
    ensures totalMemory as real >= BytesPerGiB ==> g == totalMemory as real / BytesPerGiB
  {
    MaxReal(totalMemory as real / BytesPerGiB, 1.0)
  }

  /** `format!("{total_gb:.0} GB")`; `fmt0` stands for the `{:.0}` rendering. */
  function RamSpec(totalMemory: U64, fmt0: real -> string): (spec: string)
    ensures |spec| >= 3 && spec[|spec| - 3..] == " GB"
    ensures spec[..|spec| - 3] == fmt0(MemoryGib(totalMemory))
  {
    fmt0(MemoryGib(totalMemory)) + " GB"
  }

  /** The disk list: the `wmic` models, else the volume names, else "Unknown disk". */
  function DiskList(models: Option<seq<string>>, volumeNames: seq<string>): (r: seq<string>)
    ensures r != []
    ensures models.Some? && models.value != [] ==> r == models.value
    ensures models.None? && volumeNames != [] ==> r == volumeNames
    ensures (models.None? || models.value == []) && (models.Some? || volumeNames == []) ==> r == [UnknownDisk]
  {
    var found := match models
      case Some(m) => m
      case None => volumeNames;
    if found == [] then [UnknownDisk] else found
  }

  /** What the system library reports: the brands of the CPUs, the memory in bytes, the volume names. */
  datatype HostFacts = HostFacts(cpuBrands: seq<string>, totalMemory: U64, volumeNames: seq<string>)

  /** `collect_hardware_info`. */
  method CollectHardwareInfo(host: HostFacts, windows: bool, spawn: seq<string> -> Option<WmicOutput>,
                             fmt0: real -> string) returns (info: HardwareInfo)
    ensures info.cpuModel == CpuModel(host.cpuBrands)
    ensures info.ramSpec == RamSpec(host.totalMemory, fmt0)
    ensures info.diskModels != []
    ensures info.diskModels == DiskList(
      match RunWmic(windows, DiskModelArgs, spawn) case None => None case Some(raw) => DiskModelsOf(raw),
      host.volumeNames)
    ensures info.gpuModel ==
      match RunWmic(windows, GpuArgs, spawn) case None => NoGpu case Some(raw) => FirstValue(Lines(raw)).UnwrapOr(NoGpu)
    ensures info.motherboard ==
      match RunWmic(windows, BoardArgs, spawn) case None => UnknownBoard case Some(raw) => FirstValue(Lines(raw)).UnwrapOr(UnknownBoard)
    ensures info.deviceBrand ==
      match RunWmic(windows, VendorArgs, spawn) case None => UnknownVendor case Some(raw) => FirstValue(Lines(raw)).UnwrapOr(UnknownVendor)
    ensures !windows ==> info.gpuModel == NoGpu && info.motherboard == UnknownBoard && info.deviceBrand == UnknownVendor
  {
    var models := DiskModels(windows, spawn);
    var gpu := FirstWmicValue(GpuArgs, windows, spawn);
    var board := FirstWmicValue(BoardArgs, windows, spawn);
    var vendor := FirstWmicValue(VendorArgs, windows, spawn);
    info := HardwareInfo(
      CpuModel(host.cpuBrands),
      gpu.UnwrapOr(NoGpu),
      RamSpec(host.totalMemory, fmt0),
      DiskList(models, host.volumeNames),
      board.UnwrapOr(UnknownBoard),
      vendor.UnwrapOr(UnknownVendor));
  }
}
