/**
 * The release data of the proxy: releases and assets as the upstream
 * repository-hosting API sends them, the public shape the proxy serves, and
 * the projection from one to the other (app.py:116-144), stated here as
 * recursive functions over the lists.  The loops that compute it are in
 * release_filter.dfy.
 */
module Releases {
  import opened Wrappers

  /** One key of a JSON object: missing, present with `null`, or present with a value. */
  datatype Field<T> = Absent | Null | Present(value: T)

  /** An asset object of the upstream release list. */
  datatype RawAsset = RawAsset(
    name: Field<string>,
    browserDownloadUrl: Field<string>,
    size: Field<int>,
    createdAt: Field<string>)

  /** A release object of the upstream release list. */
  datatype RawRelease = RawRelease(
    tagName: Field<string>,
    name: Field<string>,
    draft: Field<bool>,
    prerelease: Field<bool>,
    body: Field<string>,
    htmlUrl: Field<string>,
    publishedAt: Field<string>,
    assets: Field<seq<RawAsset>>)

  /** An asset as the proxy publishes it; `None` stands for JSON `null`. */
  datatype PublicAsset = PublicAsset(
    name: string,
    browserDownloadUrl: Option<string>,
    size: Option<int>,
    createdAt: Option<string>)

  /** A release as the proxy publishes it; `None` stands for JSON `null`. */
  datatype PublicRelease = PublicRelease(
    tagName: Option<string>,
    name: Option<string>,
    prerelease: Option<bool>,
    body: Option<string>,
    htmlUrl: Option<string>,
    publishedAt: Option<string>,
    assets: seq<PublicAsset>)

  /** The projection either succeeds or meets upstream data it cannot read
      (a required key missing, `null` where a string or a list is used). */
  datatype Result<T> = Ok(value: T) | Malformed

  /** The only file extension the proxy publishes. */
  const ExeSuffix: string := ".exe"

  /** Python's `s.endswith(suffix)`: exact, case-sensitive. */
  predicate EndsWith(s: string, suffix: string) {
    |suffix| <= |s| && s[|s| - |suffix|..] == suffix
  }

  /** `d.get(key, default)`: the default only when the key is missing; a `null` value is kept. */
  function GetOr<T>(f: Field<T>, default: Option<T>): (o: Option<T>)
    ensures f.Present? ==> o == Some(f.value)
    ensures o.Some? && !f.Present? ==> f.Absent? && o == default
  {
    match f
    case Absent => default
    case Null => None
    case Present(x) => Some(x)
  }

  /** `release.get('draft', False)` is truthy only for a present `true`. */
  predicate IsDraft(r: RawRelease) {
    r.draft == Present(true)
  }

  /** `release.get('assets', [])`; a `null` list (which the source cannot iterate) reads as empty here. */
  function AssetList(r: RawRelease): seq<RawAsset> {
    if r.assets.Present? then r.assets.value else []
  }

  /** The asset filter: a present name ending in ".exe". */
  predicate HasExeName(a: RawAsset) {
    a.name.Present? && EndsWith(a.name.value, ExeSuffix)
  }

  /** The asset is read without error: `asset['name']` is a string, and
      `asset['browser_download_url']` exists when that name ends in ".exe". */
  predicate AssetWellFormed(a: RawAsset): (ok: bool)
    ensures a.name.Absent? || a.name.Null? ==> !ok
    ensures a.name.Present? && !HasExeName(a) ==> ok
  {
    a.name.Present? && (EndsWith(a.name.value, ExeSuffix) ==> !a.browserDownloadUrl.Absent?)
  }

  /** Every asset of the list is read without error. */
  predicate AssetsWellFormed(assets: seq<RawAsset>) {
    forall j :: 0 <= j < |assets| ==> AssetWellFormed(assets[j])
  }

  /** The release is read without error.  A draft is skipped before anything
      else is read; `tag_name` and `html_url` are only read once the release
      has an ".exe" asset. */
  predicate ReleaseWellFormed(r: RawRelease): (ok: bool)
    ensures r.assets.Null? ==> (ok <==> IsDraft(r))
    ensures r.assets == Present([]) ==> ok
    ensures ok && IsVisible(r) ==> r.tagName.Present? || r.tagName.Null?
    ensures ok && IsVisible(r) ==> r.htmlUrl.Present? || r.htmlUrl.Null?
  {
    IsDraft(r) ||
    (!r.assets.Null? &&
     AssetsWellFormed(AssetList(r)) &&
     (PublishedAssets(AssetList(r)) != [] ==> !r.tagName.Absent? && !r.htmlUrl.Absent?))
  }

  /** The public shape of one asset (app.py:126-131). */
  function PublishAsset(a: RawAsset): (p: PublicAsset)
    requires a.name.Present?
    ensures p.name == a.name.value
    ensures p.browserDownloadUrl.Some? <==> a.browserDownloadUrl.Present?
    ensures p.size.None? <==> a.size.Null?
  {
    PublicAsset(a.name.value, GetOr(a.browserDownloadUrl, None), GetOr(a.size, Some(0)), GetOr(a.createdAt, None))
  }

  /** The ".exe" assets in their public shape, in their original order. */
  function PublishedAssets(assets: seq<RawAsset>): (ps: seq<PublicAsset>)
    ensures |ps| <= |assets|
    ensures forall i :: 0 <= i < |ps| ==> EndsWith(ps[i].name, ExeSuffix)
  {
    if assets == [] then []
    else
      var last := assets[|assets| - 1];
      PublishedAssets(assets[..|assets| - 1]) + (if HasExeName(last) then [PublishAsset(last)] else [])
  }

  /** A release the public view shows: not a draft, and at least one ".exe" asset. */
  predicate IsVisible(r: RawRelease) {
    !IsDraft(r) && PublishedAssets(AssetList(r)) != []
  }

  /** The public shape of one release (app.py:135-143). */
  function Publish(r: RawRelease): (p: PublicRelease)
    ensures IsVisible(r) ==> p.assets != []
    ensures forall i :: 0 <= i < |p.assets| ==> EndsWith(p.assets[i].name, ExeSuffix)
    ensures p.name.None? <==> r.name.Null? || (r.name.Absent? && !r.tagName.Present?)
  {
    var tag := GetOr(r.tagName, None);
    PublicRelease(tag, GetOr(r.name, tag), GetOr(r.prerelease, Some(false)), GetOr(r.body, Some("")),
                  GetOr(r.htmlUrl, None), GetOr(r.publishedAt, None), PublishedAssets(AssetList(r)))
  }

  /** The visible releases in their public shape, in their original order. */
  function PublishedReleases(rs: seq<RawRelease>): (ps: seq<PublicRelease>)
    ensures |ps| <= |rs|
    ensures forall i :: 0 <= i < |ps| ==> ps[i].assets != []
  {
    if rs == [] then []
    else
      var last := rs[|rs| - 1];
      PublishedReleases(rs[..|rs| - 1]) + (if IsVisible(last) then [Publish(last)] else [])
  }

  /** Reference definition of the projection: fail if any release cannot be
      read, otherwise publish the visible releases in order. */
  function Project(rs: seq<RawRelease>): (r: Result<seq<PublicRelease>>)
    ensures rs == [] ==> r == Ok([])
    ensures r.Ok? ==> |r.value| <= |rs|
    ensures r.Ok? ==> forall i :: 0 <= i < |r.value| ==> r.value[i].assets != []
  {
    if forall j :: 0 <= j < |rs| ==> ReleaseWellFormed(rs[j]) then Ok(PublishedReleases(rs))
    else Malformed
  }

  // ---------------------------------------------------------------------------
  // The filters: one step, concatenation, soundness and completeness

  /** One more release of the input adds at most its own public shape to the output. */
  lemma ReleasePrefixStep(rs: seq<RawRelease>, i: nat)
    requires i < |rs|
    ensures PublishedReleases(rs[..i + 1])
         == PublishedReleases(rs[..i]) + (if IsVisible(rs[i]) then [Publish(rs[i])] else [])
  {
    assert rs[..i + 1][..i] == rs[..i];
  }

  /** One more asset of the input adds at most its own public shape to the filtered assets. */
  lemma AssetPrefixStep(assets: seq<RawAsset>, k: nat)
    requires k < |assets|
    ensures PublishedAssets(assets[..k + 1])
         == PublishedAssets(assets[..k]) + (if HasExeName(assets[k]) then [PublishAsset(assets[k])] else [])
  {
    assert assets[..k + 1][..k] == assets[..k];
  }

  lemma {:induction false} PublishedAssetsAppend(xs: seq<RawAsset>, ys: seq<RawAsset>)
    ensures PublishedAssets(xs + ys) == PublishedAssets(xs) + PublishedAssets(ys)
    decreases |ys|
  {
    if ys == [] {
      assert xs + ys == xs;
    } else {
      var init := ys[..|ys| - 1];
      assert (xs + ys)[..|xs + ys| - 1] == xs + init;
      PublishedAssetsAppend(xs, init);
    }
  }

  lemma {:induction false} PublishedReleasesAppend(xs: seq<RawRelease>, ys: seq<RawRelease>)
    ensures PublishedReleases(xs + ys) == PublishedReleases(xs) + PublishedReleases(ys)
    decreases |ys|
  {
    if ys == [] {
      assert xs + ys == xs;
    } else {
      var init := ys[..|ys| - 1];
      assert (xs + ys)[..|xs + ys| - 1] == xs + init;
      PublishedReleasesAppend(xs, init);
    }
  }

  /** Every published asset is the public shape of an ".exe" asset of the input. */
  lemma {:induction false} PublishedAssetsSound(assets: seq<RawAsset>)
    ensures forall p :: p in PublishedAssets(assets) ==>
              exists a :: a in assets && HasExeName(a) && p == PublishAsset(a)
  {
    if assets != [] {
      var init := assets[..|assets| - 1];
      PublishedAssetsSound(init);
      assert forall a :: a in init ==> a in assets;
    }
  }

  /** Every ".exe" asset of the input is published. */
  lemma {:induction false} PublishedAssetsComplete(assets: seq<RawAsset>)
    ensures forall a :: a in assets && HasExeName(a) ==> PublishAsset(a) in PublishedAssets(assets)
  {
    if assets != [] {
      PublishedAssetsComplete(assets[..|assets| - 1]);
      assert assets == assets[..|assets| - 1] + [assets[|assets| - 1]];
    }
  }

  /** Every published release is the public shape of a visible input release. */
  lemma {:induction false} PublishedReleasesSound(rs: seq<RawRelease>)
    ensures forall p :: p in PublishedReleases(rs) ==>
              exists r :: r in rs && IsVisible(r) && p == Publish(r)
  {
    if rs != [] {
      var init := rs[..|rs| - 1];
      PublishedReleasesSound(init);
      assert forall r :: r in init ==> r in rs;
    }
  }

  /** Every visible input release is published. */
  lemma {:induction false} PublishedReleasesComplete(rs: seq<RawRelease>)
    ensures forall r :: r in rs && IsVisible(r) ==> Publish(r) in PublishedReleases(rs)
  {
    if rs != [] {
      PublishedReleasesComplete(rs[..|rs| - 1]);
      assert rs == rs[..|rs| - 1] + [rs[|rs| - 1]];
    }
  }

  // ---------------------------------------------------------------------------
  // Properties of the projection

  /** Projecting a concatenation projects each part and concatenates the
      results: the output keeps the input order, and one unreadable release
      anywhere fails the whole projection. */
  lemma ProjectAppend(xs: seq<RawRelease>, ys: seq<RawRelease>)
    ensures Project(xs + ys) ==
              if Project(xs).Ok? && Project(ys).Ok? then Ok(Project(xs).value + Project(ys).value)
              else Malformed
  {
    PublishedReleasesAppend(xs, ys);
    var all := xs + ys;
    if forall j :: 0 <= j < |all| ==> ReleaseWellFormed(all[j]) {
      assert forall j :: 0 <= j < |xs| ==> all[j] == xs[j];
      assert forall j :: 0 <= j < |ys| ==> all[|xs| + j] == ys[j];
    } else {
      var j :| 0 <= j < |all| && !ReleaseWellFormed(all[j]);
      if j < |xs| {
        assert all[j] == xs[j];
      } else {
        assert all[j] == ys[j - |xs|];
      }
    }
  }

  /** What one release contributes: nothing if it is a draft or has no ".exe"
      asset, its public shape otherwise, and a failure if it cannot be read. */
  lemma ProjectSingle(r: RawRelease)
    ensures Project([r]) ==
              if !ReleaseWellFormed(r) then Malformed
              else if IsVisible(r) then Ok([Publish(r)])
              else Ok([])
  {
    assert [r][..0] == [];
    assert PublishedReleases([r]) == if IsVisible(r) then [Publish(r)] else [];
  }

  /** A draft is dropped whatever its assets, and none of its fields is read. */
  lemma DraftDropped(r: RawRelease)
    requires IsDraft(r)
    ensures Project([r]) == Ok([])
  {
    ProjectSingle(r);
  }

  /** Every published release comes from a non-draft input release with at
      least one ".exe" asset, and is that release's public shape. */
  lemma ProjectSound(rs: seq<RawRelease>, out: seq<PublicRelease>, p: PublicRelease)
    requires Project(rs) == Ok(out) && p in out
    ensures exists r :: r in rs && !IsDraft(r) && PublishedAssets(AssetList(r)) != [] && p == Publish(r)
  {
    PublishedReleasesSound(rs);
  }

  /** Every non-draft input release with an ".exe" asset is published. */
  lemma ProjectComplete(rs: seq<RawRelease>, out: seq<PublicRelease>, r: RawRelease)
    requires Project(rs) == Ok(out) && r in rs && !IsDraft(r) && PublishedAssets(AssetList(r)) != []
    ensures Publish(r) in out
  {
    PublishedReleasesComplete(rs);
  }

  /** A published release carries exactly the ".exe" assets of its source:
      each of its assets is the public shape of an ".exe" asset of the source,
      and each ".exe" asset of the source is among them. */
  lemma PublishedAssetsExact(r: RawRelease)
    ensures forall p :: p in Publish(r).assets ==>
              EndsWith(p.name, ExeSuffix) && exists a :: a in AssetList(r) && HasExeName(a) && p == PublishAsset(a)
    ensures forall a :: a in AssetList(r) && HasExeName(a) ==> PublishAsset(a) in Publish(r).assets
  {
    PublishedAssetsSound(AssetList(r));
    PublishedAssetsComplete(AssetList(r));
  }

  /** The defaults of app.py:129 and app.py:137-139: a missing `name` becomes
      the tag, a missing `prerelease` false, a missing `body` empty and a
      missing asset `size` zero; a key present with `null` stays `null`. */
  lemma PublishDefaults(r: RawRelease)
    ensures r.name.Absent? ==> Publish(r).name == Publish(r).tagName
    ensures r.name.Null? ==> Publish(r).name.None?
    ensures r.prerelease.Absent? ==> Publish(r).prerelease == Some(false)
    ensures r.body.Absent? ==> Publish(r).body == Some("")
    ensures forall a: RawAsset :: a.name.Present? && a.size.Absent? ==> PublishAsset(a).size == Some(0)
  {
  }

  /** A worked example: a non-draft release with "setup.exe" and
      "readme.txt" yields one release carrying only "setup.exe". */
  lemma SetupExeExample(url: string, html: string)
    ensures
      var setup := RawAsset(Present("setup.exe"), Present(url), Present(100), Absent);
      var readme := RawAsset(Present("readme.txt"), Present(url), Absent, Absent);
      var v1 := RawRelease(Present("v1.0"), Absent, Present(false), Absent, Absent, Present(html), Absent,
                           Present([setup, readme]));
      Project([v1]) == Ok([PublicRelease(Some("v1.0"), Some("v1.0"), Some(false), Some(""), Some(html), None,
                                         [PublicAsset("setup.exe", Some(url), Some(100), None)])])
  {
    var setup := RawAsset(Present("setup.exe"), Present(url), Present(100), Absent);
    var readme := RawAsset(Present("readme.txt"), Present(url), Absent, Absent);
    var v1 := RawRelease(Present("v1.0"), Absent, Present(false), Absent, Absent, Present(html), Absent,
                         Present([setup, readme]));
    assert EndsWith("setup.exe", ExeSuffix);
    assert !EndsWith("readme.txt", ExeSuffix);
    assert PublishedAssets([setup]) == [PublishAsset(setup)] by {
      assert [setup][..0] == [];
    }
    assert PublishedAssets([setup, readme]) == [PublishAsset(setup)] by {
      assert [setup, readme][..1] == [setup];
    }
    ProjectSingle(v1);
  }
}
