/**
 * The platform search of `arduino core search`: the keywords are joined
 * and lowered into one query; a query holding a USB vendor:product pair is
 * answered by the package manager's vid/pid lookup alone, any other query
 * by a scan of the latest release of every platform in the catalog.
 */
module Search {
  import opened Wrappers
  import opened Commands
  import opened Text
  import opened Catalog

  /** How the search command ends. */
  datatype SearchOutcome =
    | Aborted(code: ExitCode)                              // the catalog could not be loaded
    | NoPlatformsMatching                                  // "No platforms matching your search"
    | PlatformsFound(releases: seq<PlatformRelease>)       // the list that is printed

  /** The lowered, space-joined keywords: every keyword, lowered, occurs in it. */
  function Query(args: seq<string>): (q: string)
    ensures |q| == |Join(args, " ")|
    ensures Lower(q) == q
    ensures HoldsKeywords(q, args)
  {
    LowerNormalises(Join(args, " "));
    QueryHoldsKeywords(args);
    Lower(Join(args, " "))
  }

  /** Every keyword, lowered, is contained in `q`. */
  predicate HoldsKeywords(q: string, args: seq<string>) {
    forall k :: 0 <= k < |args| ==> Contains(q, Lower(args[k]))
  }

  lemma QueryHoldsKeywords(args: seq<string>)
    ensures HoldsKeywords(Lower(Join(args, " ")), args)
  {
    forall k | 0 <= k < |args| ensures Contains(Lower(Join(args, " ")), Lower(args[k])) {
      JoinContainsParts(args, " ", k);
      LowerContains(Join(args, " "), args[k]);
    }
  }

  /** The `match` closure: the lowered line contains the (already lowered) query. */
  predicate MatchLine(line: string, search: string)
    ensures MatchLine(line, search) ==> |search| <= |line|
    ensures search == "" ==> MatchLine(line, search)
  {
    assert OccursAt(Lower(line), "", 0);
    Contains(Lower(line), search)
  }

  /**
   * The closure is a case-insensitive substring test: a line holding a
   * keyword, in whatever case, matches the lowered keyword.
   */
  lemma MatchLineFindsSubstring(line: string, needle: string)
    requires Contains(line, needle)
    ensures MatchLine(line, Lower(needle))
    ensures Lower(needle) == needle ==> MatchLine(line, needle)
  {
    LowerContains(line, needle);
  }

  /** The case of the line does not affect whether it matches. */
  lemma MatchLineIgnoresCase(line: string, search: string)
    ensures MatchLine(Lower(line), search) == MatchLine(line, search)
  {
    LowerNormalises(line);
  }

  /** One board hits: its name matches, or it advertises the query as a USB id. */
  predicate BoardMatches(b: Board, search: string, hasUsbId: (Board, string) -> bool) {
    MatchLine(b.name, search) || hasUsbId(b, search)
  }

  predicate AnyBoardMatches(boards: seq<Board>, search: string, hasUsbId: (Board, string) -> bool) {
    exists k :: 0 <= k < |boards| && BoardMatches(boards[k], search, hasUsbId)
  }

  /**
   * A platform is selected by the generic scan: it has a latest release and
   * its name, its architecture or one of that release's boards matches.
   */
  predicate PlatformMatches(p: Platform, search: string, hasUsbId: (Board, string) -> bool) {
    p.latest.Some? &&
    (MatchLine(p.name, search) || MatchLine(p.architecture, search) ||
     AnyBoardMatches(p.latest.value.boards, search, hasUsbId))
  }

  /** The latest releases of the selected platforms, in visiting order. */
  function Selected(ps: seq<Platform>, search: string, hasUsbId: (Board, string) -> bool): seq<PlatformRelease>
    decreases |ps|
  {
    if |ps| == 0 then [] else Contribution(ps[0], search, hasUsbId) + Selected(ps[1..], search, hasUsbId)
  }

  /** What one platform adds to the result: its latest release if it is selected, else nothing. */
  function Contribution(p: Platform, search: string, hasUsbId: (Board, string) -> bool): seq<PlatformRelease> {
    if PlatformMatches(p, search, hasUsbId) then [p.latest.value] else []
  }

  /** The result of the generic (substring) scan over a whole catalog. */
  function GenericMatches(catalog: seq<Package>, search: string, hasUsbId: (Board, string) -> bool): seq<PlatformRelease> {
    Selected(AllPlatforms(catalog), search, hasUsbId)
  }

  /** The result list `res` of the search, for a loaded catalog. */
  function SearchResults(search: string, catalog: seq<Package>,
                         findByVidPid: (string, string) -> seq<PlatformRelease>,
                         hasUsbId: (Board, string) -> bool): (res: seq<PlatformRelease>)
    ensures ContainsUsbId(search) ==> |search| >= 9 && res == findByVidPid(search[..4], search[5..])
    ensures !ContainsUsbId(search) ==> |res| <= |AllPlatforms(catalog)|
    ensures !ContainsUsbId(search) ==> Explained(res, catalog, search, hasUsbId)
  {
    if ContainsUsbId(search) then
      findByVidPid(search[..4], search[5..])
    else
      GenericMatchesBound(catalog, search, hasUsbId);
      GenericSound(catalog, search, hasUsbId);
      GenericMatches(catalog, search, hasUsbId)
  }

  /** What the command prints last: the "no platforms matching" message exactly for an empty result. */
  function Report(res: seq<PlatformRelease>): (o: SearchOutcome)
    ensures o == NoPlatformsMatching <==> res == []
    ensures o != NoPlatformsMatching ==> o == PlatformsFound(res)
    ensures !o.Aborted?
  {
    if |res| == 0 then NoPlatformsMatching else PlatformsFound(res)
  }

  /** Every release of `res` is the latest release of a catalog platform that matches the query. */
  ghost predicate Explained(res: seq<PlatformRelease>, catalog: seq<Package>, search: string,
                            hasUsbId: (Board, string) -> bool) {
    forall r :: r in res ==>
      exists p :: p in AllPlatforms(catalog) && p.latest == Some(r) && PlatformMatches(p, search, hasUsbId)
  }

  lemma GenericSound(catalog: seq<Package>, search: string, hasUsbId: (Board, string) -> bool)
    ensures Explained(GenericMatches(catalog, search, hasUsbId), catalog, search, hasUsbId)
  {
    forall r | r in GenericMatches(catalog, search, hasUsbId)
      ensures exists p :: p in AllPlatforms(catalog) && p.latest == Some(r) && PlatformMatches(p, search, hasUsbId)
    {
      SelectedMembership(AllPlatforms(catalog), search, hasUsbId, r);
    }
  }

  /**
   * `runSearchCommand`. `loaded` is whether `LoadHardware` succeeded;
   * `findByVidPid` is `FindPlatformReleaseProvidingBoardsWithVidPid` and
   * `hasUsbId` is `Board.HasUsbID`, both external to this model.
   */
  method RunSearch(loaded: bool, args: seq<string>, catalog: seq<Package>,
                   findByVidPid: (string, string) -> seq<PlatformRelease>,
                   hasUsbId: (Board, string) -> bool)
    returns (outcome: SearchOutcome)
    ensures !loaded ==> outcome == Aborted(ErrCoreConfig)
    ensures loaded ==> outcome == Report(SearchResults(Query(args), catalog, findByVidPid, hasUsbId))
  {
    if !loaded {
      return Aborted(ErrCoreConfig);
    }
    var search := Lower(Join(args, " "));
    var res: seq<PlatformRelease> := [];
    if ContainsUsbId(search) {
      var vid, pid := search[..4], search[5..];
      res := findByVidPid(vid, pid);
    } else {
      res := GenericScan(catalog, search, hasUsbId);
    }
    outcome := if |res| == 0 then NoPlatformsMatching else PlatformsFound(res);
  }

  /**
   * The scan of `runSearchCommand` for a query without a USB id: every
   * package, every platform, and the boards of its latest release, with the
   * source's `continue` after a name or architecture hit and `break` after
   * the first board hit.
   */
  method GenericScan(catalog: seq<Package>, search: string, hasUsbId: (Board, string) -> bool)
    returns (res: seq<PlatformRelease>)
    ensures res == GenericMatches(catalog, search, hasUsbId)
  {
    res := [];
    for i := 0 to |catalog|
      invariant res == GenericMatches(catalog[..i], search, hasUsbId)
    {
      var platforms := catalog[i].platforms;
      ghost var done := res;
      for j := 0 to |platforms|
        invariant res == done + Selected(platforms[..j], search, hasUsbId)
      {
        var platform := platforms[j];
        SelectedStep(platforms, j, search, hasUsbId);
        if platform.latest.None? {
          assert Contribution(platform, search, hasUsbId) == [];
          continue;
        }
        var release := platform.latest.value;
        if MatchLine(platform.name, search) || MatchLine(platform.architecture, search) {
          assert Contribution(platform, search, hasUsbId) == [release];
          res := res + [release];
          continue;
        }
        var hit := ScanBoards(release.boards, search, hasUsbId);
        if hit {
          res := res + [release];
        }
      }
      assert GenericMatches(catalog[..i + 1], search, hasUsbId) ==
             done + Selected(platforms[..|platforms|], search, hasUsbId) by {
        assert catalog[..i + 1] == catalog[..i] + [catalog[i]];
        assert platforms[..|platforms|] == platforms;
        GenericMatchesAppend(catalog[..i], [catalog[i]], search, hasUsbId);
        assert AllPlatforms([catalog[i]]) == platforms by {
          assert [catalog[i]][1..] == [];
        }
      }
    }
    assert catalog[..|catalog|] == catalog;
  }

  /**
   * The board loop of the scan: the boards of the latest release are tried
   * in turn, stopping (`break`) at the first whose name matches or which
   * advertises the query as a USB id.
   */
  method ScanBoards(boards: seq<Board>, search: string, hasUsbId: (Board, string) -> bool)
    returns (hit: bool)
    ensures hit <==> AnyBoardMatches(boards, search, hasUsbId)
  {
    hit := false;
    for k := 0 to |boards|
      invariant !hit
      invariant forall m :: 0 <= m < k ==> !BoardMatches(boards[m], search, hasUsbId)
    {
      if MatchLine(boards[k].name, search) || hasUsbId(boards[k], search) {
        assert BoardMatches(boards[k], search, hasUsbId);
        hit := true;
        break;
      }
    }
  }

  /** Scanning one more platform adds its contribution at the end. */
  lemma SelectedStep(ps: seq<Platform>, j: nat, search: string, hasUsbId: (Board, string) -> bool)
    requires j < |ps|
    ensures Selected(ps[..j + 1], search, hasUsbId) == Selected(ps[..j], search, hasUsbId) + Contribution(ps[j], search, hasUsbId)
  {
    assert ps[..j + 1] == ps[..j] + [ps[j]];
    SelectedAppend(ps[..j], [ps[j]], search, hasUsbId);
    assert [ps[j]][1..] == [];
  }

  /** Scanning two platform lists one after the other concatenates their results. */
  lemma {:induction false} SelectedAppend(a: seq<Platform>, b: seq<Platform>, search: string,
                                          hasUsbId: (Board, string) -> bool)
    ensures Selected(a + b, search, hasUsbId) == Selected(a, search, hasUsbId) + Selected(b, search, hasUsbId)
    decreases |a|
  {
    if |a| == 0 {
      assert a + b == b;
    } else {
      assert (a + b)[0] == a[0] && (a + b)[1..] == a[1..] + b;
      SelectedAppend(a[1..], b, search, hasUsbId);
      var c := Contribution(a[0], search, hasUsbId);
      calc {
        Selected(a + b, search, hasUsbId);
        c + Selected(a[1..] + b, search, hasUsbId);
        c + (Selected(a[1..], search, hasUsbId) + Selected(b, search, hasUsbId));
        (c + Selected(a[1..], search, hasUsbId)) + Selected(b, search, hasUsbId);
      }
    }
  }

  /** Package order: the results for earlier packages come before those for later ones. */
  lemma GenericMatchesAppend(a: seq<Package>, b: seq<Package>, search: string,
                             hasUsbId: (Board, string) -> bool)
    ensures GenericMatches(a + b, search, hasUsbId)
         == GenericMatches(a, search, hasUsbId) + GenericMatches(b, search, hasUsbId)
  {
    AllPlatformsAppend(a, b);
    SelectedAppend(AllPlatforms(a), AllPlatforms(b), search, hasUsbId);
  }

  /** The positions of the selected platforms in `ps`, from position `i` on, ascending. */
  function Positions(ps: seq<Platform>, i: nat, search: string, hasUsbId: (Board, string) -> bool): seq<nat>
    requires i <= |ps|
    decreases |ps| - i
  {
    if i == |ps| then []
    else (if PlatformMatches(ps[i], search, hasUsbId) then [i] else []) + Positions(ps, i + 1, search, hasUsbId)
  }

  /**
   * Latest release only, once per platform, in catalog order: the k-th
   * result is the latest release of the platform at the k-th position of
   * an ascending list of positions, and a position is in that list exactly
   * when its platform is selected.
   */
  lemma {:induction false} SelectedPositions(ps: seq<Platform>, i: nat, search: string,
                                             hasUsbId: (Board, string) -> bool)
    requires i <= |ps|
    ensures var f, r := Positions(ps, i, search, hasUsbId), Selected(ps[i..], search, hasUsbId);
      |f| == |r| &&
      (forall k :: 0 <= k < |f| ==> i <= f[k] < |ps| && ps[f[k]].latest == Some(r[k])) &&
      (forall k, l :: 0 <= k < l < |f| ==> f[k] < f[l]) &&
      (forall j :: i <= j < |ps| ==> (j in f <==> PlatformMatches(ps[j], search, hasUsbId)))
    decreases |ps| - i
  {
    if i < |ps| {
      SelectedPositions(ps, i + 1, search, hasUsbId);
      assert ps[i..][1..] == ps[i + 1..];
    }
  }

  /** The generic result has at most one entry per platform of the catalog. */
  lemma GenericMatchesBound(catalog: seq<Package>, search: string, hasUsbId: (Board, string) -> bool)
    ensures |GenericMatches(catalog, search, hasUsbId)| <= |AllPlatforms(catalog)|
  {
    var ps := AllPlatforms(catalog);
    SelectedPositions(ps, 0, search, hasUsbId);
    assert ps[0..] == ps;
    var f := Positions(ps, 0, search, hasUsbId);
    PositionsBound(f, |ps|);
  }

  /** A strictly ascending list of positions below `n` has at most `n` entries. */
  lemma {:induction false} PositionsBound(f: seq<nat>, n: nat)
    requires forall k :: 0 <= k < |f| ==> f[k] < n
    requires forall k, l :: 0 <= k < l < |f| ==> f[k] < f[l]
    ensures |f| <= n
    decreases n
  {
    if |f| > 0 {
      var last, init := f[|f| - 1], f[..|f| - 1];
      forall k | 0 <= k < |init| ensures init[k] < last {
        assert init[k] == f[k];
      }
      PositionsBound(init, last);
    }
  }

  /**
   * Membership: a release is in the generic result exactly when it is the
   * latest release of a catalog platform whose name or architecture
   * contains the query, or one of whose latest release's boards has a
   * matching name or advertises the query as a USB id.
   */
  lemma GenericMembership(catalog: seq<Package>, search: string, hasUsbId: (Board, string) -> bool,
                          r: PlatformRelease)
    ensures r in GenericMatches(catalog, search, hasUsbId) <==>
      exists p :: p in AllPlatforms(catalog) && p.latest == Some(r) &&
        (MatchLine(p.name, search) || MatchLine(p.architecture, search) ||
         (exists b :: b in r.boards && (MatchLine(b.name, search) || hasUsbId(b, search))))
  {
    SelectedMembership(AllPlatforms(catalog), search, hasUsbId, r);
  }

  lemma {:induction false} SelectedMembership(ps: seq<Platform>, search: string,
                                              hasUsbId: (Board, string) -> bool, r: PlatformRelease)
    ensures r in Selected(ps, search, hasUsbId) <==>
      exists p :: p in ps && p.latest == Some(r) && PlatformMatches(p, search, hasUsbId)
    decreases |ps|
  {
    if |ps| > 0 {
      SelectedMembership(ps[1..], search, hasUsbId, r);
      assert forall p :: p in ps <==> p == ps[0] || p in ps[1..];
    }
  }

  /** Search against an empty catalog with a non-USB query reports no matching platforms. */
  lemma EmptyCatalogFindsNothing(args: seq<string>,
                                 findByVidPid: (string, string) -> seq<PlatformRelease>,
                                 hasUsbId: (Board, string) -> bool)
    requires !ContainsUsbId(Query(args))
    ensures Report(SearchResults(Query(args), [], findByVidPid, hasUsbId)) == NoPlatformsMatching
  {
  }

  /**
   * Fast-path exclusivity: a query holding a vendor:product pair is answered
   * by the vid/pid lookup on the first four characters and everything from
   * offset five on, whatever the catalog and the boards' USB ids are.
   */
  lemma UsbQueryIgnoresCatalog(search: string, c1: seq<Package>, c2: seq<Package>,
                               findByVidPid: (string, string) -> seq<PlatformRelease>,
                               h1: (Board, string) -> bool, h2: (Board, string) -> bool)
    requires ContainsUsbId(search)
    ensures |search| >= 9
    ensures SearchResults(search, c1, findByVidPid, h1) == findByVidPid(search[..4], search[5..])
    ensures SearchResults(search, c1, findByVidPid, h1) == SearchResults(search, c2, findByVidPid, h2)
  {
  }

  /** The empty query selects every platform that has a latest release. */
  lemma {:induction false} EmptyQuerySelectsAll(ps: seq<Platform>, hasUsbId: (Board, string) -> bool)
    ensures |Selected(ps, "", hasUsbId)| == |set j | 0 <= j < |ps| && ps[j].latest.Some?|
    ensures forall j :: 0 <= j < |ps| ==> (PlatformMatches(ps[j], "", hasUsbId) <==> ps[j].latest.Some?)
  {
    forall j | 0 <= j < |ps| && ps[j].latest.Some?
      ensures PlatformMatches(ps[j], "", hasUsbId)
    {
      assert OccursAt(Lower(ps[j].name), "", 0);
    }
    SelectedPositions(ps, 0, "", hasUsbId);
    assert ps[0..] == ps;
    var f := Positions(ps, 0, "", hasUsbId);
    assert (set j | 0 <= j < |ps| && ps[j].latest.Some?) == set k | 0 <= k < |f| :: f[k];
    DistinctCard(f);
  }

  /** An ascending list has as many distinct entries as it has entries. */
  lemma {:induction false} DistinctCard(f: seq<nat>)
    requires forall k, l :: 0 <= k < l < |f| ==> f[k] < f[l]
    ensures |set k | 0 <= k < |f| :: f[k]| == |f|
    decreases |f|
  {
    if |f| > 0 {
      var init := f[..|f| - 1];
      DistinctCard(init);
      assert (set k | 0 <= k < |f| :: f[k]) == (set k | 0 <= k < |init| :: init[k]) + {f[|f| - 1]};
      assert f[|f| - 1] !in (set k | 0 <= k < |init| :: init[k]);
    }
  }

  /**
   * The vendor and product ids are cut at fixed offsets 0 and 5, wherever
   * the pair occurs, and the product id runs to the end of the query.
   */
  lemma UsbIdsCutAtFixedOffsets(catalog: seq<Package>,
                                findByVidPid: (string, string) -> seq<PlatformRelease>,
                                hasUsbId: (Board, string) -> bool)
    ensures SearchResults("usb 2341:8036", catalog, findByVidPid, hasUsbId) == findByVidPid("usb ", "341:8036")
    ensures SearchResults("2341:8036 uno", catalog, findByVidPid, hasUsbId) == findByVidPid("2341", "8036 uno")
  {
    var s1, s2 := "usb 2341:8036", "2341:8036 uno";
    assert UsbIdAt(s1, 4);
    assert s1[..4] == "usb " && s1[5..] == "341:8036";
    assert UsbIdAt(s2, 0);
    assert s2[..4] == "2341" && s2[5..] == "8036 uno";
  }

  /** Searching "MKRZero" finds the SAMD platform through the name of one of its boards. */
  lemma MkrZeroFoundThroughBoardName(findByVidPid: (string, string) -> seq<PlatformRelease>,
                                     hasUsbId: (Board, string) -> bool)
    ensures var release := PlatformRelease("arduino", "samd", "1.6.18",
                                           [Board("mkr1000", "Arduino MKR1000"), Board("mkrzero", "Arduino MKRZero")]);
      var catalog := [Package("arduino", [Platform("Arduino SAMD Boards (32-bits ARM Cortex-M0+)", "samd", Some(release))])];
      Report(SearchResults(Query(["MKRZero"]), catalog, findByVidPid, hasUsbId)) == PlatformsFound([release])
  {
    var release := PlatformRelease("arduino", "samd", "1.6.18",
                                   [Board("mkr1000", "Arduino MKR1000"), Board("mkrzero", "Arduino MKRZero")]);
    var platform := Platform("Arduino SAMD Boards (32-bits ARM Cortex-M0+)", "samd", Some(release));
    var catalog := [Package("arduino", [platform])];
    assert Query(["MKRZero"]) == "mkrzero";
    assert !ContainsUsbId("mkrzero");
    assert Lower("Arduino MKRZero") == "arduino mkrzero";
    assert OccursAt(Lower("Arduino MKRZero"), "mkrzero", 8);
    assert BoardMatches(release.boards[1], "mkrzero", hasUsbId);
    assert PlatformMatches(platform, "mkrzero", hasUsbId);
    assert AllPlatforms(catalog) == [platform];
  }
}
