/**
 * The read-only hardware catalog the package manager loads: packages,
 * their platforms, the latest release of each platform and the boards of
 * that release. The catalog's own loading and version ordering are not
 * part of this model: a platform carries the result of `GetLatestRelease`.
 */
module Catalog {
  import opened Wrappers

  datatype Board = Board(boardId: string, name: string)

  /** An immutable snapshot of a platform; `boards` is its boards manifest. */
  datatype PlatformRelease = PlatformRelease(
    packager: string, architecture: string, version: string, boards: seq<Board>)

  /** A platform; `latest` is what `GetLatestRelease` returns (None for nil). */
  datatype Platform = Platform(name: string, architecture: string, latest: Option<PlatformRelease>)

  datatype Package = Package(name: string, platforms: seq<Platform>)

  /** The platforms in the order the nested package/platform range visits them. */
  function AllPlatforms(packages: seq<Package>): seq<Platform>
    decreases |packages|
  {
    if |packages| == 0 then [] else packages[0].platforms + AllPlatforms(packages[1..])
  }

  /** Visiting two catalogs one after the other visits their platforms one after the other. */
  lemma {:induction false} AllPlatformsAppend(a: seq<Package>, b: seq<Package>)
    ensures AllPlatforms(a + b) == AllPlatforms(a) + AllPlatforms(b)
    decreases |a|
  {
    if |a| == 0 {
      assert a + b == b;
    } else {
      assert (a + b)[1..] == a[1..] + b;
      AllPlatformsAppend(a[1..], b);
    }
  }
}
