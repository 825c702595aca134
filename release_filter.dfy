/**
 * The release filter as app.py:116-144 writes it: two nested loops that append
 * to `public_releases` and `filtered_assets`, skipping drafts and releases left
 * without ".exe" assets.  A key the loop indexes that is missing, or a `null`
 * it uses as a string or a list, raises in the source and ends the request with
 * the generic 500 error; here the method returns `Malformed` at that point.
 * The body of the release loop and the asset loop are methods of their own.
 */
module ReleaseFilter {
  import opened Wrappers
  import opened Releases

  /** The projection loop; it computes exactly the reference projection. */
  method FilterReleases(allReleases: seq<RawRelease>) returns (result: Result<seq<PublicRelease>>)
    ensures result == Project(allReleases)
  {
    var publicReleases: seq<PublicRelease> := [];
    var i := 0;
    while i < |allReleases|
      invariant 0 <= i <= |allReleases|
      invariant forall j :: 0 <= j < i ==> ReleaseWellFormed(allReleases[j])
      invariant publicReleases == PublishedReleases(allReleases[..i])
    {
      var release := allReleases[i];
      ReleasePrefixStep(allReleases, i);
      var publicRelease := FilterRelease(release);
      if publicRelease.Malformed? {
        NotWellFormed(allReleases, i);
        return Malformed;
      }
      if publicRelease.value.Some? {
        publicReleases := publicReleases + [publicRelease.value.value];
      }
      i := i + 1;
    }
    assert allReleases[..i] == allReleases;
    return Ok(publicReleases);
  }

  /** The body of the release loop: `None` for a release that is skipped, its
      public shape otherwise, `Malformed` when it cannot be read. */
  method FilterRelease(release: RawRelease) returns (result: Result<Option<PublicRelease>>)
    ensures result.Ok? <==> ReleaseWellFormed(release)
    ensures result.Ok? ==> result.value == if IsVisible(release) then Some(Publish(release)) else None
  {
    if release.draft == Present(true) {
      return Ok(None);
    }
    var assets: seq<RawAsset>;
    match release.assets {
      case Absent => assets := [];
      case Null =>
        // iterating over None
        return Malformed;
      case Present(s) => assets := s;
    }
    var filteredAssets := FilterAssets(assets);
    if filteredAssets.Malformed? {
      return Malformed;
    }
    if filteredAssets.value == [] {
      return Ok(None);
    }
    if release.tagName.Absent? || release.htmlUrl.Absent? {
      return Malformed;
    }
    var tagName := GetOr(release.tagName, None);
    var publicRelease := PublicRelease(tagName,
                                       GetOr(release.name, tagName),
                                       GetOr(release.prerelease, Some(false)),
                                       GetOr(release.body, Some("")),
                                       GetOr(release.htmlUrl, None),
                                       GetOr(release.publishedAt, None),
                                       filteredAssets.value);
    return Ok(Some(publicRelease));
  }

  /** The asset loop of one release: the ".exe" assets in their public shape,
      or `Malformed` as soon as an asset cannot be read. */
  method FilterAssets(assets: seq<RawAsset>) returns (result: Result<seq<PublicAsset>>)
    ensures result.Ok? <==> AssetsWellFormed(assets)
    ensures result.Ok? ==> result.value == PublishedAssets(assets)
  {
    var filteredAssets: seq<PublicAsset> := [];
    var k := 0;
    while k < |assets|
      invariant 0 <= k <= |assets|
      invariant forall j :: 0 <= j < k ==> AssetWellFormed(assets[j])
      invariant filteredAssets == PublishedAssets(assets[..k])
    {
      var asset := assets[k];
      AssetPrefixStep(assets, k);
      if !asset.name.Present? {
        // `asset['name']` missing, or `None.endswith`
        return Malformed;
      }
      if EndsWith(asset.name.value, ExeSuffix) {
        if asset.browserDownloadUrl.Absent? {
          return Malformed;
        }
        var publicAsset := PublicAsset(asset.name.value,
                                       GetOr(asset.browserDownloadUrl, None),
                                       GetOr(asset.size, Some(0)),
                                       GetOr(asset.createdAt, None));
        filteredAssets := filteredAssets + [publicAsset];
      }
      k := k + 1;
    }
    assert assets[..k] == assets;
    return Ok(filteredAssets);
  }

  /** A release that cannot be read fails the whole projection. */
  lemma NotWellFormed(rs: seq<RawRelease>, i: nat)
    requires i < |rs| && !ReleaseWellFormed(rs[i])
    ensures Project(rs) == Malformed
  {
  }
}
