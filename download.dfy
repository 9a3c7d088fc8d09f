/**
 * The download command of `arduino core download`: resolve the requested
 * platform references into platform and tool releases, check that every
 * tool has a flavour for the running system, then fetch every tool and
 * then every platform, stopping the whole batch at the first failure.
 */
module Download {
  import opened Wrappers
  import opened Commands
  import opened Catalog

  /** A tool release a platform depends on. */
  datatype ToolRelease = ToolRelease(packager: string, name: string, version: string)

  /** `PACKAGER:ARCH[=VERSION]`, as the reference parser produces it. */
  datatype PlatformReference = PlatformReference(packager: string, architecture: string, version: Option<string>)

  /** What `FindItemsToDownload` yields: an error, or the platforms and the tools to fetch. */
  datatype Resolution =
    | ResolveError
    | Resolved(platforms: seq<PlatformRelease>, tools: seq<ToolRelease>)

  /** One artifact of the batch. */
  datatype Item = ToolItem(tool: ToolRelease) | PlatformItem(platform: PlatformRelease)

  /** How a live transfer ended: `resp.Err()` nil or not. */
  datatype TransferEnd = TransferOk | TransferError

  /**
   * What a download request gives back: a nil response (already present),
   * a response whose transfer runs to an end, or a request error.
   */
  datatype FetchResult = AlreadyPresent | Transferred(end: TransferEnd) | RequestError

  /** The per-item outcome `download` reports. */
  datatype ItemOutcome = AlreadyDownloaded | Downloaded | Failed(code: ExitCode)

  /** A whole run: how it ended and, in order, the items whose fetch was requested. */
  datatype Run = Run(code: ExitCode, attempted: seq<Item>)

  /** `download`: the classification of one fetch. */
  function Classify(f: FetchResult): (o: ItemOutcome)
    ensures o.Failed? <==> (f == RequestError || f == Transferred(TransferError))
    ensures o.Failed? ==> o.code == ErrNetwork
    ensures o == AlreadyDownloaded <==> f == AlreadyPresent
  {
    match f
    case RequestError => Failed(ErrNetwork)
    case AlreadyPresent => AlreadyDownloaded
    case Transferred(TransferOk) => Downloaded
    case Transferred(TransferError) => Failed(ErrNetwork)
  }

  /** The fetch primitive applied to an item: `DownloadToolRelease` or `DownloadPlatformRelease`. */
  function FetchItem(item: Item, fetchTool: ToolRelease -> FetchResult,
                     fetchPlatform: PlatformRelease -> FetchResult): FetchResult {
    match item
    case ToolItem(t) => fetchTool(t)
    case PlatformItem(p) => fetchPlatform(p)
  }

  predicate IsFatal(item: Item, fetchTool: ToolRelease -> FetchResult,
                    fetchPlatform: PlatformRelease -> FetchResult) {
    Classify(FetchItem(item, fetchTool, fetchPlatform)).Failed?
  }

  /** The batch in fetch order: every tool, then every platform. */
  function Items(tools: seq<ToolRelease>, platforms: seq<PlatformRelease>): seq<Item> {
    seq(|tools|, i requires 0 <= i < |tools| => ToolItem(tools[i])) +
    seq(|platforms|, i requires 0 <= i < |platforms| => PlatformItem(platforms[i]))
  }

  predicate AllCompatible(tools: seq<ToolRelease>, compatible: ToolRelease -> bool) {
    forall i :: 0 <= i < |tools| ==> compatible(tools[i])
  }

  /** Fetching a list of items one by one until the first fatal one. */
  function FetchAll(items: seq<Item>, fetchTool: ToolRelease -> FetchResult,
                    fetchPlatform: PlatformRelease -> FetchResult): (r: Run)
    ensures r.code == Success || r.code == ErrNetwork
    ensures StopsAtFatal(r, items, fetchTool, fetchPlatform)
    decreases |items|
  {
    if |items| == 0 then Run(Success, [])
    else match Classify(FetchItem(items[0], fetchTool, fetchPlatform))
      case Failed(code) => Run(code, [items[0]])
      case _ =>
        var rest := FetchAll(items[1..], fetchTool, fetchPlatform);
        Run(rest.code, [items[0]] + rest.attempted)
  }

  /**
   * `r` requested a prefix of `items`: all of them when it succeeded, and
   * otherwise up to and including a fatal one.
   */
  predicate StopsAtFatal(r: Run, items: seq<Item>, fetchTool: ToolRelease -> FetchResult,
                         fetchPlatform: PlatformRelease -> FetchResult) {
    |r.attempted| <= |items| && r.attempted == items[..|r.attempted|] &&
    (r.code == Success ==> r.attempted == items) &&
    (r.code == ErrNetwork ==>
      |r.attempted| > 0 && IsFatal(items[|r.attempted| - 1], fetchTool, fetchPlatform))
  }

  /** The reference run of the whole command on a resolution. */
  function Expected(resolution: Resolution, compatible: ToolRelease -> bool,
                    fetchTool: ToolRelease -> FetchResult,
                    fetchPlatform: PlatformRelease -> FetchResult): (r: Run)
    ensures r.code == ErrBadCall <==> resolution.ResolveError?
    ensures r.code == ErrGeneric <==> resolution.Resolved? && !AllCompatible(resolution.tools, compatible)
    ensures r.code == ErrBadCall || r.code == ErrGeneric ==> r.attempted == []
    ensures r.code != ErrCoreConfig
  {
    match resolution
    case ResolveError => Run(ErrBadCall, [])
    case Resolved(platforms, tools) =>
      if !AllCompatible(tools, compatible) then Run(ErrGeneric, [])
      else FetchAll(Items(tools, platforms), fetchTool, fetchPlatform)
  }

  /**
   * `downloadPlatforms`. `findItems` is `FindItemsToDownload`, `compatible`
   * says whether `GetCompatibleFlavour` finds a flavour, and `fetchTool` /
   * `fetchPlatform` are the package manager's download requests; the ghost
   * `attempted` records every fetch requested, in order.
   */
  method DownloadPlatforms(refs: seq<PlatformReference>,
                           findItems: seq<PlatformReference> -> Resolution,
                           compatible: ToolRelease -> bool,
                           fetchTool: ToolRelease -> FetchResult,
                           fetchPlatform: PlatformRelease -> FetchResult)
    returns (code: ExitCode, ghost attempted: seq<Item>)
    ensures code == Expected(findItems(refs), compatible, fetchTool, fetchPlatform).code
    ensures attempted == Expected(findItems(refs), compatible, fetchTool, fetchPlatform).attempted
  {
    attempted := [];
    var resolution := findItems(refs);
    if resolution.ResolveError? {
      return ErrBadCall, attempted;
    }
    var platforms, tools := resolution.platforms, resolution.tools;

    for i := 0 to |tools|
      invariant AllCompatible(tools[..i], compatible)
    {
      if !compatible(tools[i]) {
        assert Expected(resolution, compatible, fetchTool, fetchPlatform) == Run(ErrGeneric, []) by {
          assert !AllCompatible(tools, compatible);
        }
        return ErrGeneric, attempted;
      }
    }

    ghost var items := Items(tools, platforms);
    assert Expected(resolution, compatible, fetchTool, fetchPlatform) == FetchAll(items, fetchTool, fetchPlatform) by {
      assert tools[..|tools|] == tools;
    }
    assert tools[0..] == tools;
    for i := 0 to |tools|
      invariant Expected(resolution, compatible, fetchTool, fetchPlatform) == Resume(attempted, Items(tools[i..], platforms), fetchTool, fetchPlatform)
    {
      var resp := fetchTool(tools[i]);
      var outcome := DownloadItem(resp);
      ghost var rest := Items(tools[i..], platforms);
      assert |rest| > 0 && rest[0] == ToolItem(tools[i]) && rest[1..] == Items(tools[i + 1..], platforms) by {
        ItemsFront(tools[i..], platforms);
        assert tools[i..][1..] == tools[i + 1..];
      }
      ResumeStep(attempted, rest, fetchTool, fetchPlatform);
      attempted := attempted + [ToolItem(tools[i])];
      if outcome.Failed? {
        return outcome.code, attempted;
      }
    }

    assert tools[|tools|..] == [] && platforms[0..] == platforms;
    for j := 0 to |platforms|
      invariant Expected(resolution, compatible, fetchTool, fetchPlatform) == Resume(attempted, Items([], platforms[j..]), fetchTool, fetchPlatform)
    {
      var resp := fetchPlatform(platforms[j]);
      var outcome := DownloadItem(resp);
      ghost var rest := Items([], platforms[j..]);
      assert |rest| > 0 && rest[0] == PlatformItem(platforms[j]) && rest[1..] == Items([], platforms[j + 1..]) by {
        ItemsFront([], platforms[j..]);
        assert platforms[j..][1..] == platforms[j + 1..];
      }
      ResumeStep(attempted, rest, fetchTool, fetchPlatform);
      attempted := attempted + [PlatformItem(platforms[j])];
      if outcome.Failed? {
        return outcome.code, attempted;
      }
    }
    assert Items([], platforms[|platforms|..]) == [];
    return Success, attempted;
  }

  /**
   * `download`: classify one fetch response; a failure stops the batch.
   * `Classify` is its specification, branch for branch.
   */
  method DownloadItem(resp: FetchResult) returns (outcome: ItemOutcome)
    ensures outcome == Classify(resp)
  {
    match resp
    case RequestError => outcome := Failed(ErrNetwork);
    case AlreadyPresent => outcome := AlreadyDownloaded;
    case Transferred(end) =>
      outcome := if end == TransferError then Failed(ErrNetwork) else Downloaded;
  }

  /** The run once the items `done` went through: those items, then the fetches of `rest`. */
  ghost function Resume(done: seq<Item>, rest: seq<Item>, fetchTool: ToolRelease -> FetchResult,
                        fetchPlatform: PlatformRelease -> FetchResult): Run
  {
    var r := FetchAll(rest, fetchTool, fetchPlatform);
    Run(r.code, done + r.attempted)
  }

  /** The next item of `rest` is fetched: the run stops there if it fails, and otherwise goes on after it. */
  lemma ResumeStep(done: seq<Item>, rest: seq<Item>, fetchTool: ToolRelease -> FetchResult,
                   fetchPlatform: PlatformRelease -> FetchResult)
    requires |rest| > 0
    ensures IsFatal(rest[0], fetchTool, fetchPlatform) ==>
      Resume(done, rest, fetchTool, fetchPlatform) == Run(ErrNetwork, done + [rest[0]])
    ensures !IsFatal(rest[0], fetchTool, fetchPlatform) ==>
      Resume(done, rest, fetchTool, fetchPlatform) == Resume(done + [rest[0]], rest[1..], fetchTool, fetchPlatform)
  {
  }

  /** The batch starts with the first tool, or with the first platform when there are no tools. */
  lemma ItemsFront(tools: seq<ToolRelease>, platforms: seq<PlatformRelease>)
    requires |tools| + |platforms| > 0
    ensures |tools| > 0 ==> Items(tools, platforms)[0] == ToolItem(tools[0]) &&
                            Items(tools, platforms)[1..] == Items(tools[1..], platforms)
    ensures |tools| == 0 ==> Items(tools, platforms)[0] == PlatformItem(platforms[0]) &&
                             Items(tools, platforms)[1..] == Items(tools, platforms[1..])
  {
  }

  /** Resolve failure: the command ends with a bad-call status and fetches nothing. */
  lemma ResolveFailureFetchesNothing(compatible: ToolRelease -> bool, fetchTool: ToolRelease -> FetchResult,
                                     fetchPlatform: PlatformRelease -> FetchResult)
    ensures Expected(ResolveError, compatible, fetchTool, fetchPlatform) == Run(ErrBadCall, [])
  {
  }

  /**
   * Flavour precondition: one tool without a compatible flavour, wherever it
   * stands in the list, ends the command with a generic error before any fetch.
   */
  lemma MissingFlavourFetchesNothing(platforms: seq<PlatformRelease>, tools: seq<ToolRelease>, k: nat,
                                     compatible: ToolRelease -> bool, fetchTool: ToolRelease -> FetchResult,
                                     fetchPlatform: PlatformRelease -> FetchResult)
    requires k < |tools| && !compatible(tools[k])
    ensures Expected(Resolved(platforms, tools), compatible, fetchTool, fetchPlatform) == Run(ErrGeneric, [])
  {
  }

  /**
   * The fetches of a list end at its first fatal item: the run succeeds
   * exactly when no item is fatal, and then every item was requested;
   * otherwise it ends with a network error right after the first fatal item.
   */
  lemma {:induction false} FetchAllStopsAtFirstFatal(items: seq<Item>, fetchTool: ToolRelease -> FetchResult,
                                                     fetchPlatform: PlatformRelease -> FetchResult)
    ensures var r := FetchAll(items, fetchTool, fetchPlatform);
      |r.attempted| <= |items| && r.attempted == items[..|r.attempted|] &&
      (r.code == Success <==> forall k :: 0 <= k < |items| ==> !IsFatal(items[k], fetchTool, fetchPlatform)) &&
      (r.code == Success ==> r.attempted == items) &&
      (r.code != Success ==>
        r.code == ErrNetwork && |r.attempted| > 0 &&
        IsFatal(items[|r.attempted| - 1], fetchTool, fetchPlatform) &&
        forall k :: 0 <= k < |r.attempted| - 1 ==> !IsFatal(items[k], fetchTool, fetchPlatform))
    decreases |items|
  {
    if |items| > 0 {
      FetchAllStopsAtFirstFatal(items[1..], fetchTool, fetchPlatform);
      var r := FetchAll(items, fetchTool, fetchPlatform);
      if !IsFatal(items[0], fetchTool, fetchPlatform) {
        var rest := FetchAll(items[1..], fetchTool, fetchPlatform);
        assert r.attempted == [items[0]] + rest.attempted;
        assert forall k :: 1 <= k < |items| ==> items[k] == items[1..][k - 1];
      }
    }
  }

  /**
   * Fetch order: the requested fetches are a prefix of the tools followed by
   * the platforms, so no platform is requested before every tool was.
   */
  lemma FetchOrder(resolution: Resolution, compatible: ToolRelease -> bool,
                   fetchTool: ToolRelease -> FetchResult, fetchPlatform: PlatformRelease -> FetchResult)
    requires resolution.Resolved?
    ensures var r := Expected(resolution, compatible, fetchTool, fetchPlatform);
      var items := Items(resolution.tools, resolution.platforms);
      |r.attempted| <= |items| && r.attempted == items[..|r.attempted|] &&
      forall k :: 0 <= k < |r.attempted| && r.attempted[k].PlatformItem? ==>
        |resolution.tools| <= k &&
        forall j :: 0 <= j < |resolution.tools| ==> r.attempted[j] == ToolItem(resolution.tools[j])
  {
    FetchAllStopsAtFirstFatal(Items(resolution.tools, resolution.platforms), fetchTool, fetchPlatform);
  }

  /**
   * Request error and transfer error: when the i-th item of the batch is the
   * first whose request fails or whose transfer ends in error, the command
   * ends with a network error and nothing after the i-th item is requested.
   */
  lemma FirstFailureEndsBatch(platforms: seq<PlatformRelease>, tools: seq<ToolRelease>, i: nat,
                              compatible: ToolRelease -> bool, fetchTool: ToolRelease -> FetchResult,
                              fetchPlatform: PlatformRelease -> FetchResult)
    requires AllCompatible(tools, compatible)
    requires i < |Items(tools, platforms)|
    requires FetchItem(Items(tools, platforms)[i], fetchTool, fetchPlatform) == RequestError ||
             FetchItem(Items(tools, platforms)[i], fetchTool, fetchPlatform) == Transferred(TransferError)
    requires forall k :: 0 <= k < i ==> !IsFatal(Items(tools, platforms)[k], fetchTool, fetchPlatform)
    ensures Expected(Resolved(platforms, tools), compatible, fetchTool, fetchPlatform)
         == Run(ErrNetwork, Items(tools, platforms)[..i + 1])
  {
    var items := Items(tools, platforms);
    FetchAllStopsAtFirstFatal(items, fetchTool, fetchPlatform);
    var r := FetchAll(items, fetchTool, fetchPlatform);
    assert IsFatal(items[i], fetchTool, fetchPlatform);
    assert r.code != Success;
  }

  /**
   * Already present: an item reported as already downloaded is not an
   * error; the batch goes on with the next item, or succeeds if it was the last.
   */
  lemma AlreadyPresentContinues(platforms: seq<PlatformRelease>, tools: seq<ToolRelease>, i: nat,
                                compatible: ToolRelease -> bool, fetchTool: ToolRelease -> FetchResult,
                                fetchPlatform: PlatformRelease -> FetchResult)
    requires i < |Items(tools, platforms)|
    requires i < |Expected(Resolved(platforms, tools), compatible, fetchTool, fetchPlatform).attempted|
    requires FetchItem(Items(tools, platforms)[i], fetchTool, fetchPlatform) == AlreadyPresent
    ensures var r := Expected(Resolved(platforms, tools), compatible, fetchTool, fetchPlatform);
      if i + 1 < |Items(tools, platforms)| then i + 1 < |r.attempted| else r.code == Success
  {
    var items := Items(tools, platforms);
    FetchAllStopsAtFirstFatal(items, fetchTool, fetchPlatform);
    assert !IsFatal(items[i], fetchTool, fetchPlatform);
  }

  /**
   * Success condition: the command succeeds exactly when resolution
   * succeeded, every tool has a compatible flavour and no fetch of the batch
   * failed; a successful run requested every tool and every platform.
   */
  lemma SuccessCondition(resolution: Resolution, compatible: ToolRelease -> bool,
                         fetchTool: ToolRelease -> FetchResult, fetchPlatform: PlatformRelease -> FetchResult)
    ensures var r := Expected(resolution, compatible, fetchTool, fetchPlatform);
      (r.code == Success <==>
        resolution.Resolved? && AllCompatible(resolution.tools, compatible) &&
        forall k :: 0 <= k < |Items(resolution.tools, resolution.platforms)| ==>
          !IsFatal(Items(resolution.tools, resolution.platforms)[k], fetchTool, fetchPlatform)) &&
      (r.code == Success ==> r.attempted == Items(resolution.tools, resolution.platforms))
  {
    if resolution.Resolved? {
      FetchAllStopsAtFirstFatal(Items(resolution.tools, resolution.platforms), fetchTool, fetchPlatform);
    }
  }

  /**
   * Re-running a completed download: when every artifact is already present,
   * every item is reported as already downloaded and the command succeeds.
   */
  lemma RerunFindsEverythingPresent(platforms: seq<PlatformRelease>, tools: seq<ToolRelease>,
                                    compatible: ToolRelease -> bool, fetchTool: ToolRelease -> FetchResult,
                                    fetchPlatform: PlatformRelease -> FetchResult)
    requires AllCompatible(tools, compatible)
    requires forall t :: t in tools ==> fetchTool(t) == AlreadyPresent
    requires forall p :: p in platforms ==> fetchPlatform(p) == AlreadyPresent
    ensures Expected(Resolved(platforms, tools), compatible, fetchTool, fetchPlatform)
         == Run(Success, Items(tools, platforms))
  {
    var items := Items(tools, platforms);
    forall k | 0 <= k < |items| ensures !IsFatal(items[k], fetchTool, fetchPlatform) {
      if k < |tools| {
        assert items[k] == ToolItem(tools[k]);
      } else {
        assert items[k] == PlatformItem(platforms[k - |tools|]);
      }
    }
    SuccessCondition(Resolved(platforms, tools), compatible, fetchTool, fetchPlatform);
  }

  /**
   * When the first of the platforms fails mid-transfer after every tool went
   * through, all tools and that one platform were requested and nothing else.
   */
  lemma FirstPlatformTransferFails(platforms: seq<PlatformRelease>, tools: seq<ToolRelease>,
                                   compatible: ToolRelease -> bool, fetchTool: ToolRelease -> FetchResult,
                                   fetchPlatform: PlatformRelease -> FetchResult)
    requires AllCompatible(tools, compatible)
    requires forall t :: t in tools ==> fetchTool(t) != RequestError && fetchTool(t) != Transferred(TransferError)
    requires |platforms| >= 1 && fetchPlatform(platforms[0]) == Transferred(TransferError)
    ensures var r := Expected(Resolved(platforms, tools), compatible, fetchTool, fetchPlatform);
      r.code == ErrNetwork && |r.attempted| == |tools| + 1 &&
      r.attempted == Items(tools, [platforms[0]])
  {
    var items := Items(tools, platforms);
    forall k | 0 <= k < |tools| ensures !IsFatal(items[k], fetchTool, fetchPlatform) {
      assert items[k] == ToolItem(tools[k]);
    }
    assert items[|tools|] == PlatformItem(platforms[0]);
    FirstFailureEndsBatch(platforms, tools, |tools|, compatible, fetchTool, fetchPlatform);
    assert items[..|tools| + 1] == Items(tools, [platforms[0]]);
  }
}
