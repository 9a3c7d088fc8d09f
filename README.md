# arduino-cli `core search` and `core download`, modelled in Dafny

This project models the two pieces of command logic of arduino-cli's `core`
package that make decisions of their own:

- **`arduino core search <keywords...>`** (`runSearchCommand`). The keywords are
  joined with spaces and lowered into one query. A query holding a USB
  `vid:pid` pair (four lower-case hex digits, a colon, four more) is answered by
  the package manager's vid/pid lookup and nothing else. Any other query scans
  every package and platform of the loaded catalog. For each platform it uses only
  the latest release. That release is kept once if the platform's name or
  architecture contains the query, or if one of its boards has a name containing
  the query or advertises the query as a USB id. A catalog that fails to load
  ends the command with the core-config status.
- **`arduino core download <PACKAGER:ARCH[=VERSION]>...`** (`downloadPlatforms`
  and `download`). The references are resolved into platform and tool releases.
  A resolution error ends the command with the bad-call status. A tool with no
  flavour for the running system ends it with the generic status before anything
  is fetched. Otherwise every tool and then every platform is fetched in order.
  A request error or a transfer that ends in error stops the batch with the
  network status. An artifact that is already present is skipped.

Files and modules:

| file | module | contents |
|---|---|---|
| `wrappers.dfy` | `Wrappers` | `Option`, standing for a Go pointer that may be nil |
| `commands.dfy` | `Commands` | `ExitCode`: `Success` and the four `Err*` statuses |
| `text.dfy` | `Text` | ASCII `Lower`, `Join`, `Contains`, the `vid:pid` pattern |
| `catalog.dfy` | `Catalog` | `Board`, `PlatformRelease`, `Platform`, `Package`, the platform visiting order |
| `search.dfy` | `Search` | the search as a method with the source's nested loops, its reference functions and lemmas |
| `download.dfy` | `Download` | the download batch as a method with the source's loops, its reference run and lemmas |

Both commands are written as methods whose loops follow the source's
(`continue` after the name/architecture hit, `break` after the first board hit,
early `return` for each `os.Exit`). The search's package and platform loops
are the method `GenericScan`, and its board loop is `ScanBoards`. Each method's postcondition ties its result
to a reference function (`SearchResults`, `Expected`). The lemmas state the
promised properties about those functions.

The collaborators the core calls are parameters of the methods:

- `LoadHardware` is the boolean `loaded`.
- `GetLatestRelease` is the field `Platform.latest`.
- `FindPlatformReleaseProvidingBoardsWithVidPid` is `findByVidPid`.
- `Board.HasUsbID` is `hasUsbId`.
- `FindItemsToDownload` is `findItems`.
- `GetCompatibleFlavour() != nil` is `compatible`.
- `DownloadToolRelease` and `DownloadPlatformRelease` are `fetchTool` and `fetchPlatform`.

Each fetch yields a `FetchResult`: `AlreadyPresent` (nil response),
`Transferred(TransferOk | TransferError)` (the result of `resp.Err()` after the
progress bar), or `RequestError` (a non-nil `err`). The download method keeps a
ghost `attempted` trace of every fetch it requested.

How the code cuts the ids, which the model follows as written:

- The code takes `search[5:]` as the product id
  (commands/core/search.go:68). That slice runs from offset 5 to the end of the
  query, not four characters.
- The ids are cut at offsets 0 and 5 wherever the pattern occurs. For the query
  `usb 2341:8036` the lookup receives `usb ` and `341:8036`. The lemma
  `Search.UsbIdsCutAtFixedOffsets` shows this.

## Model

| member | source | states |
|---|---|---|
| Search.RunSearch | commands/core/search.go:55-99 | a failed hardware load ends with `ErrCoreConfig` and no matching; otherwise the outcome reports exactly the results of the USB fast path or of the generic scan, "no platforms matching" when they are empty |
| Search.Query | commands/core/search.go:62 | every keyword, lowered, occurs in the query; the query is as long as the keywords joined with single spaces, and it is already lower case: lowering it again changes nothing |
| Text.ContainsUsbId | commands/core/search.go:67 | the `vid:pid` test holds only of strings of at least nine characters, so `search[:4]` and `search[5:]` exist whenever it passes |
| Text.UsbIdUnanchored | commands/core/search.go:67 | the pattern is unanchored: text before or after a query containing a `vid:pid` pair does not stop it matching |
| Search.MatchLine | commands/core/search.go:71-73 | a line can contain the query only if it is at least as long, and the empty query matches every line |
| Search.MatchLineFindsSubstring | commands/core/search.go:71-73 | the closure is a case-insensitive substring test: a line containing a keyword, in any case, matches the lowered keyword, and a line containing an already lowered query matches it |
| Search.MatchLineIgnoresCase | commands/core/search.go:71-73 | lowering the line first does not change whether it matches |
| Search.SearchResults | commands/core/search.go:66-92 | a query containing a `vid:pid` pair yields exactly the vid/pid lookup on `search[:4]` and `search[5:]`; any other query yields at most as many releases as the catalog has platforms, each the latest release of some catalog platform that matches the query |
| Search.GenericSound | commands/core/search.go:74-91 | every release of the generic result is the latest release of some catalog platform that matches the query |
| Search.Report | commands/core/search.go:94-98 | an empty result is reported as "no platforms matching", any other result is reported in full, and reporting never aborts the command |
| Search.GenericScan | commands/core/search.go:74-91 | the package and platform loops, with `continue` for a platform without a latest release or with a name or architecture hit, compute exactly the generic result `GenericMatches` |
| Search.ScanBoards | commands/core/search.go:84-89 | the board loop, stopping at the first hit, finds a board exactly when some board of the release has a matching name or advertises the query as a USB id |
| Search.UsbQueryIgnoresCatalog | commands/core/search.go:67-69 | a query containing a `vid:pid` pair is answered by the vid/pid lookup on `search[:4]` and `search[5:]` alone: the catalog and the boards' USB ids do not affect the result |
| Search.UsbIdsCutAtFixedOffsets | commands/core/search.go:67-68 | the ids are sliced at offsets 0 and 5 whatever the match position, and the product id runs to the end of the query |
| Search.SelectedPositions | commands/core/search.go:74-91 | the k-th result is the latest release of the platform at the k-th of a strictly ascending list of catalog positions, and a position is in that list exactly when its platform has a latest release and matches: latest release only, one entry per platform, catalog order |
| Search.GenericMatchesBound | commands/core/search.go:80-88 | the generic result has at most as many entries as the catalog has platforms |
| Search.GenericMembership | commands/core/search.go:71-88 | a release is in the generic result iff it is the latest release of a catalog platform whose lowered name or architecture contains the query, or one of whose boards has a lowered name containing it or `HasUsbID` of it |
| Search.SelectedMembership | commands/core/search.go:75-90 | over one platform list, a release is selected iff some platform of the list has it as latest release and matches |
| Search.SelectedAppend | commands/core/search.go:75-90 | scanning two platform lists in turn yields the first list's results followed by the second's |
| Search.GenericMatchesAppend | commands/core/search.go:74-91 | results for earlier packages precede results for later packages; nothing is re-sorted |
| Search.EmptyCatalogFindsNothing | commands/core/search.go:74-95 | with no packages and a non-USB query the command reports "no platforms matching", not an error |
| Search.EmptyQuerySelectsAll | commands/core/search.go:71-82 | the empty query matches every platform with a latest release, and the result has one entry for each |
| Search.MkrZeroFoundThroughBoardName | commands/core/search.go:84-87 | searching `MKRZero` in a catalog whose SAMD release has a board "Arduino MKRZero" reports exactly that release |
| Text.JoinContainsParts | commands/core/search.go:62 | every keyword occurs in the joined query |
| Text.JoinLength | commands/core/search.go:62 | the joined query is as long as the keywords plus one separator between each pair |
| Text.LowerContains | commands/core/search.go:62 | a string that contains a keyword still contains it once both are lowered |
| Text.LowerNormalises | commands/core/search.go:62 | the lowered query has the same length, no upper-case letter, and lowering it again changes nothing |
| Catalog.AllPlatformsAppend | commands/core/search.go:74-75 | visiting two lists of packages in turn visits their platforms in turn |
| Download.DownloadPlatforms | commands/core/download.go:53-83 | the exit status, and the ghost trace of requested fetches, are exactly those of the reference run `Expected` on what `FindItemsToDownload` returns; the lemmas below state what that run promises |
| Download.Expected | commands/core/download.go:53-83 | the run ends with `ErrBadCall` exactly when resolution fails and with `ErrGeneric` exactly when some tool lacks a flavour, requesting nothing in both cases; it never ends with `ErrCoreConfig` |
| Download.FetchAll | commands/core/download.go:68-99 | fetching a list ends with `Success` or `ErrNetwork`; the requested items are a prefix of the list, all of it on success, and on a network error the last one requested is one whose fetch failed |
| Download.DownloadItem | commands/core/download.go:85-99 | the per-item outcome is `Classify` of the fetch result |
| Download.Classify | commands/core/download.go:85-99 | a request error or a transfer ending in error fails with `ErrNetwork`; only a nil response counts as already downloaded; a completed transfer is a success |
| Download.ResolveFailureFetchesNothing | commands/core/download.go:54-58 | a resolution error ends with `ErrBadCall` and no fetch is requested |
| Download.MissingFlavourFetchesNothing | commands/core/download.go:61-66 | any tool without a compatible flavour, at any position, ends with `ErrGeneric` and no fetch is requested |
| Download.FetchAllStopsAtFirstFatal | commands/core/download.go:70-99 | the requested fetches are a prefix of the list; the run succeeds iff no item fails, and then all were requested; otherwise it ends with `ErrNetwork` right after the first failing item |
| Download.FetchOrder | commands/core/download.go:68-80 | the requested fetches are a prefix of the tools followed by the platforms; a platform is requested only after every tool was |
| Download.FirstFailureEndsBatch | commands/core/download.go:86-89 | when item i is the first whose request fails or whose transfer ends in error, the command ends with `ErrNetwork` having requested exactly items 0..i |
| Download.AlreadyPresentContinues | commands/core/download.go:90-93 | an item found already present is not an error: the next item is requested, or the command succeeds if it was the last |
| Download.SuccessCondition | commands/core/download.go:53-83 | the command succeeds iff resolution succeeded, every tool has a flavour and no fetch failed; a successful run requested every tool and platform |
| Download.RerunFindsEverythingPresent | commands/core/download.go:70-93 | when every artifact is already present every item is requested and skipped, and the command succeeds |
| Download.FirstPlatformTransferFails | commands/core/download.go:70-80 | after all tools go through, a failed transfer of the first platform ends with `ErrNetwork` having requested all tools and that platform only |

## Left out

- Cobra command construction (`initSearchCommand`, `initDownloadCommand`) and the argument-count rules. These are framework configuration.
- `runDownloadCommand`'s wiring. `parsePlatformReferenceArgs` is not part of this model: the method takes the parsed references.
- All `formatter` output, the progress bar and `logrus` logging. They are messages only. The search outcome records which final message branch is taken.
- The package manager (`InitPackageManager`, `LoadHardware`, `GetPackages`, `FindItemsToDownload`, `FindPlatformReleaseProvidingBoardsWithVidPid`, `GetLatestRelease`, `Board.HasUsbID`, `GetCompatibleFlavour`, `DownloadToolRelease`, `DownloadPlatformRelease`). Its code is not part of this model, so each is a parameter or given data.
- The `grab` HTTP response. Only the terminal result of a transfer is modelled.
- The fetch primitive is a function of the item, so two requests for the same release give the same result. Network state changing between requests is not modelled.
- `os.Exit`. It is modelled as an early return of an `ExitCode`. The numeric values of the statuses are not modelled.
- Strings are sequences of characters, while Go indexes and slices strings by UTF-8 bytes. `search[:4]`, `search[5:]` and the match offsets are counted in characters here. For a query with a non-ASCII character in its first five bytes, such as `café 2341:8036`, the model passes different ids to the lookup than the code does. The model is exact for ASCII queries.
- The visiting order of Go maps. `Packages` and `Platforms` are ranged over as maps, whose order Go leaves unspecified. The model's sequences stand for whatever order the range visits, and "catalog order" in the lemmas means that order.
- Go's full regular-expression engine and Unicode `strings.ToLower`. The pattern is a hand-written "some offset holds four lower-case hex digits, a colon and four more", and lowering is ASCII only.
