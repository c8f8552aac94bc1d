/**
 * `CmdLine`: the options bag the tracker is configured from. Parsing the command line and
 * the configuration file (Boost.program_options) is outside the model; an `Options` value is
 * what that parsing leaves in `vm_` and in the variables bound to it. What is modelled is how
 * the getters read that bag and how `loadConfig` regroups the coordinate lists into points.
 */
module CommandLine {
  import opened Wrappers
  import opened Geometry

  datatype DetectorType = ZBAR | DTMX

  datatype TrackerType = MBT | KLT | KLT_MBT

  /** The declared options, by long name ("dmtxonly", "video-camera", ..., "log-pose"). */
  datatype Key =
    | DmtxOnly | VideoCamera | VideoSource | DataDirectory | VideoInputPath | VideoOutputPath
    | SingleImage | PatternName | DetectorTypeKey | TrackerTypeKey | Verbose | DmxDetectorTimeout
    | ConfigFile | ShowPlot | Help
    | FlashcodeCoordinates | InnerCoordinates | OuterCoordinates | VarianceFile | VarianceLimit
    | MbtConvergenceSteps | HinkleyRange | MbtDynamicRange | AdHocRecovery | AdHocRecoveryRatio
    | AdHocRecoverySize | AdHocRecoveryThreshold | LogCheckpointsKey | LogPoseKey

  /**
   * The parsed options: `present` holds every option for which `vm_.count(name) > 0`
   * (options with a default value count as present); the other fields are the values bound
   * to individual options.
   */
  datatype Options = Options(
    present: set<Key>,
    dataDir: string,
    patternName: string,
    singleImageName: string,
    detectorType: string,
    trackerType: string,
    dmxTimeout: int,
    hinkleyRange: seq<real>,
    varLimit: real,
    adhocRecoveryRatio: real,
    adhocRecoverySize: real,
    adhocRecoveryThreshold: nat,
    flashcodeCoordinates: seq<real>,
    innerCoordinates: seq<real>,
    outerCoordinates: seq<real>)

  /**
   * The bag when nothing is given: the declared default values. The variance limit has no
   * default; its value is irrelevant while "variance-limit" is absent.
   */
  const Defaults := Options(
    {VideoSource, DataDirectory, VideoInputPath, PatternName, DetectorTypeKey, TrackerTypeKey,
     DmxDetectorTimeout, ConfigFile, MbtConvergenceSteps, AdHocRecoveryRatio, AdHocRecoverySize,
     AdHocRecoveryThreshold},
    "./data/", "pattern", "", "zbar", "klt_mbt", 1000, [], 0.0, 0.5, 0.5, 100, [], [], [])

  predicate UsingHinkley(o: Options) { HinkleyRange in o.present && |o.hinkleyRange| == 2 }

  predicate UsingVarLimit(o: Options) { VarianceLimit in o.present }

  predicate UsingAdhocRecovery(o: Options) { AdHocRecovery in o.present }

  predicate LogCheckpoints(o: Options) { LogCheckpointsKey in o.present }

  /** `get_hinkley_alpha`: the first value of the pair; throws unless `using_hinkley`. */
  function GetHinkleyAlpha(o: Options): (r: Result<real>)
    ensures r.Ok? <==> UsingHinkley(o)
    ensures r.Ok? ==> r.value == o.hinkleyRange[0]
  {
    if !UsingHinkley(o) then Err("std::exception") else Ok(o.hinkleyRange[0])
  }

  /** `get_hinkley_delta`: the second value of the pair; throws unless `using_hinkley`. */
  function GetHinkleyDelta(o: Options): (r: Result<real>)
    ensures r.Ok? <==> UsingHinkley(o)
    ensures r.Ok? ==> r.value == o.hinkleyRange[1]
  {
    if !UsingHinkley(o) then Err("std::exception") else Ok(o.hinkleyRange[1])
  }

  /**
   * The two getters succeed together, exactly when "hinkley-range" holds a pair, and then
   * give back that pair in order.
   */
  lemma HinkleyPairRoundTrip(o: Options)
    ensures UsingHinkley(o) <==> HinkleyRange in o.present && |o.hinkleyRange| == 2
    ensures GetHinkleyAlpha(o).Ok? <==> GetHinkleyDelta(o).Ok?
    ensures UsingHinkley(o) ==> [GetHinkleyAlpha(o).value, GetHinkleyDelta(o).value] == o.hinkleyRange
  {
  }

  /** `get_detector_type`: "zbar" selects ZBAR, every other string DTMX. */
  function GetDetectorType(o: Options): (t: DetectorType)
    ensures t == ZBAR <==> o.detectorType == "zbar"
    ensures t == DTMX <==> o.detectorType != "zbar"
  {
    if o.detectorType == "zbar" then ZBAR else DTMX
  }

  /** `get_tracker_type`: "mbt" and "klt" select their tracker, every other string the hybrid. */
  function GetTrackerType(o: Options): (t: TrackerType)
    ensures t == MBT <==> o.trackerType == "mbt"
    ensures t == KLT <==> o.trackerType == "klt"
    ensures t == KLT_MBT <==> o.trackerType != "mbt" && o.trackerType != "klt"
  {
    if o.trackerType == "mbt" then MBT
    else if o.trackerType == "klt" then KLT
    else KLT_MBT
  }

  /**
   * The default tracker string "klt_mbt" and the spelling "mbt_klt" of the help text both
   * give the hybrid tracker; "dtmx" and any misspelling of "zbar" give DTMX.
   */
  lemma SelectorFallbacks(o: Options)
    ensures o.trackerType in {"klt_mbt", "mbt_klt"} ==> GetTrackerType(o) == KLT_MBT
    ensures o.detectorType in {"dtmx", "ZBAR", "zbar "} ==> GetDetectorType(o) == DTMX
  {
  }

  /** `p` is `a`, then `b`, then `c`, with nothing between them. */
  predicate Joined(p: string, a: string, b: string, c: string)
  {
    |p| == |a| + |b| + |c| && p[..|a|] == a && p[|a|..|a| + |b|] == b && p[|a| + |b|..] == c
  }

  /** `get_wrl_file`: the data directory, the pattern name and ".wrl", no separator added. */
  function GetWrlFile(o: Options): (p: string)
    ensures Joined(p, o.dataDir, o.patternName, ".wrl")
  {
    o.dataDir + o.patternName + ".wrl"
  }

  /** `get_xml_file`: the data directory, the pattern name and ".xml", no separator added. */
  function GetXmlFile(o: Options): (p: string)
    ensures Joined(p, o.dataDir, o.patternName, ".xml")
  {
    o.dataDir + o.patternName + ".xml"
  }

  /** `get_init_file`: the data directory, the pattern name and ".init", no separator added. */
  function GetInitFile(o: Options): (p: string)
    ensures Joined(p, o.dataDir, o.patternName, ".init")
  {
    o.dataDir + o.patternName + ".init"
  }

  /** `get_single_image_path`: the data directory followed by the image name. */
  function GetSingleImagePath(o: Options): (p: string)
    ensures Joined(p, o.dataDir, o.singleImageName, "")
  {
    o.dataDir + o.singleImageName
  }

  /**
   * The three model files share the stem data directory ++ pattern name and differ in the
   * extension only; a data directory without a trailing slash runs into the pattern name.
   */
  lemma ModelFilesShareStem(o: Options)
    ensures var k := |o.dataDir| + |o.patternName|;
      GetWrlFile(o)[..k] == GetXmlFile(o)[..k] == GetInitFile(o)[..k] == o.dataDir + o.patternName
    ensures GetWrlFile(Defaults) == "./data/pattern.wrl"
    ensures GetWrlFile(Defaults.(dataDir := "./data")) == "./datapattern.wrl"
  {
    var k := |o.dataDir| + |o.patternName|;
    var w, x, i := GetWrlFile(o), GetXmlFile(o), GetInitFile(o);
    assert w[..k] == w[..|o.dataDir|] + w[|o.dataDir|..k];
    assert x[..k] == x[..|o.dataDir|] + x[|o.dataDir|..k];
    assert i[..k] == i[..|o.dataDir|] + i[|o.dataDir|..k];
  }

  /** With no options given, none of the three health checks is enabled and ZBAR/hybrid are selected. */
  lemma DefaultsDisableChecks()
    ensures !UsingVarLimit(Defaults) && !UsingHinkley(Defaults)
    ensures !UsingAdhocRecovery(Defaults) && !LogCheckpoints(Defaults)
    ensures GetDetectorType(Defaults) == ZBAR && GetTrackerType(Defaults) == KLT_MBT
    ensures Defaults.dmxTimeout == 1000 && Defaults.adhocRecoveryThreshold == 100
  {
  }

  /** `pts` is `coords` read three at a time as world points; one or two trailing values are dropped. */
  predicate IsGrouping(coords: seq<real>, pts: seq<Point>)
  {
    |pts| == |coords| / 3 &&
    forall i :: 0 <= i < |pts| ==>
      (3 * i + 2 < |coords| && pts[i] == WorldPoint(coords[3 * i], coords[3 * i + 1], coords[3 * i + 2]))
  }

  /** One of the three `for` loops of `loadConfig`: consecutive triples become points. */
  method GroupCoordinates(coords: seq<real>) returns (pts: seq<Point>)
    ensures IsGrouping(coords, pts)
  {
    pts := [];
    var i := 0;
    while i < |coords| / 3
      invariant 0 <= i <= |coords| / 3
      invariant |pts| == i
      invariant forall k :: 0 <= k < i ==>
                  (3 * k + 2 < |coords| && pts[k] == WorldPoint(coords[3 * k], coords[3 * k + 1], coords[3 * k + 2]))
    {
      pts := pts + [WorldPoint(coords[i * 3], coords[i * 3 + 1], coords[i * 3 + 2])];
      i := i + 1;
    }
  }

  /** Values after the last complete triple do not change the points. */
  lemma TrailingValuesIgnored(coords: seq<real>, extra: seq<real>, pts: seq<Point>)
    requires |coords| % 3 == 0 && |extra| < 3
    requires IsGrouping(coords, pts)
    ensures IsGrouping(coords + extra, pts)
  {
    var all := coords + extra;
    assert |all| / 3 == |coords| / 3;
    forall i | 0 <= i < |pts|
      ensures 3 * i + 2 < |all| && pts[i] == WorldPoint(all[3 * i], all[3 * i + 1], all[3 * i + 2])
    {
      assert all[3 * i] == coords[3 * i] && all[3 * i + 1] == coords[3 * i + 1] && all[3 * i + 2] == coords[3 * i + 2];
    }
  }

  class CmdLine {
    var vm: Options
    var flashcodePoints3D: seq<Point>
    var innerPoints3D: seq<Point>
    var outerPoints3D: seq<Point>
    var shouldExit: bool

    /**
     * Both constructors, `CmdLine(config_file)` and `CmdLine(argc, argv)`: `should_exit_`
     * starts false, the (left-out) parser fills `vm_`, and `loadConfig` runs.
     */
    constructor (parsed: Options)
      ensures vm == parsed
      ensures IsGrouping(parsed.flashcodeCoordinates, flashcodePoints3D)
      ensures IsGrouping(parsed.innerCoordinates, innerPoints3D)
      ensures IsGrouping(parsed.outerCoordinates, outerPoints3D)
      ensures shouldExit <==> Help in parsed.present
    {
      vm := parsed;
      flashcodePoints3D, innerPoints3D, outerPoints3D := [], [], [];
      shouldExit := false;
      new;
      LoadConfig();
    }

    /** `loadConfig` after parsing: the three coordinate lists are appended as points, and "help" asks to exit. */
    method LoadConfig()
      modifies this
      ensures vm == old(vm)
      ensures |flashcodePoints3D| >= |old(flashcodePoints3D)| && flashcodePoints3D[..|old(flashcodePoints3D)|] == old(flashcodePoints3D)
      ensures IsGrouping(vm.flashcodeCoordinates, flashcodePoints3D[|old(flashcodePoints3D)|..])
      ensures |innerPoints3D| >= |old(innerPoints3D)| && innerPoints3D[..|old(innerPoints3D)|] == old(innerPoints3D)
      ensures IsGrouping(vm.innerCoordinates, innerPoints3D[|old(innerPoints3D)|..])
      ensures |outerPoints3D| >= |old(outerPoints3D)| && outerPoints3D[..|old(outerPoints3D)|] == old(outerPoints3D)
      ensures IsGrouping(vm.outerCoordinates, outerPoints3D[|old(outerPoints3D)|..])
      ensures shouldExit <==> old(shouldExit) || Help in vm.present
    {
      var flashcode := GroupCoordinates(vm.flashcodeCoordinates);
      assert (flashcodePoints3D + flashcode)[|flashcodePoints3D|..] == flashcode;
      flashcodePoints3D := flashcodePoints3D + flashcode;
      var inner := GroupCoordinates(vm.innerCoordinates);
      assert (innerPoints3D + inner)[|innerPoints3D|..] == inner;
      innerPoints3D := innerPoints3D + inner;
      var outer := GroupCoordinates(vm.outerCoordinates);
      assert (outerPoints3D + outer)[|outerPoints3D|..] == outer;
      outerPoints3D := outerPoints3D + outer;
      if Help in vm.present {
        shouldExit := true;
      }
    }
  }
}
