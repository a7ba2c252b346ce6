/**
  The desktop updater's decision on the release GitHub reports: once the
  response has been parsed, `checkForUpdates` settles its promise with "an
  update is available", "no update" (with the API's error message, or the
  message that the repository has no release), or a rejection.

  The request, the streaming of the response and `JSON.parse` stay outside the
  model: the decision starts from the parsed object, or from None when parsing
  failed or produced `null`.
*/
module Updates {
  import opened Wrappers
  import opened Versions

  /** `CONFIG.currentVersion`. */
  const CurrentVersion: string := "1.0.0"

  /** `CONFIG.updateUrl`. */
  const UpdateUrl: string := "https://api.github.com/repos/Rimix98/Flickers-Calculator/releases/latest"

  /** One entry of `assets`: only its download link is read. */
  datatype Asset = Asset(browserDownloadUrl: Option<string>)

  /** The fields of the release object the decision reads (None: the property is absent). */
  datatype Release = Release(
    message: Option<string>,
    tagName: Option<string>,
    assets: Option<seq<Asset>>,
    body: Option<string>)

  /** The object `checkForUpdates` resolves with. */
  datatype Check =
    | NoUpdate(error: Option<string>)
    | Update(version: string, downloadUrl: Option<string>, releaseNotes: Option<string>)

  /** How the promise settles; a TypeError inside the `try` rejects it. */
  datatype Settled = Resolved(check: Check) | Rejected

  /** A string property in a JavaScript condition: absent and `""` are falsy. */
  predicate Truthy(x: Option<string>) {
    x.Some? && x.value != ""
  }

  /** The text of the "no release" error. */
  const NoReleases: string := "No releases found"

  /** `release.assets[0]?.browser_download_url`, when `assets` is an array. */
  function FirstDownload(assets: seq<Asset>): Option<string> {
    if assets == [] then None else assets[0].browserDownloadUrl
  }

  /** The body of the `try` in `checkForUpdates`, from the parsed release on. */
  function Decide(current: string, parsed: Option<Release>): Settled {
    match parsed
    case None => Rejected
    case Some(release) =>
      if Truthy(release.message) then Resolved(NoUpdate(release.message))
      else if !Truthy(release.tagName) then Resolved(NoUpdate(Some(NoReleases)))
      else
        var latest := RemoveFirst(release.tagName.value, 'v');
        if Compare(latest, current) > 0 then
          match release.assets
          case Some(assets) => Resolved(Update(latest, FirstDownload(assets), release.body))
          case None => Rejected
        else Resolved(NoUpdate(None))
  }

  /** `class Updater`: the installed version and where releases are looked up. */
  class Updater {
    var currentVersion: string
    var updateUrl: string

    constructor ()
      ensures currentVersion == CurrentVersion && updateUrl == UpdateUrl
    {
      currentVersion := CurrentVersion;
      updateUrl := UpdateUrl;
    }

    /** The decision inside `checkForUpdates`, written as the straight-line branches of the source. */
    method DecideRelease(parsed: Option<Release>) returns (result: Settled)
      ensures result == Decide(currentVersion, parsed)
    {
      if parsed.None? {
        return Rejected;
      }
      var release := parsed.value;
      if Truthy(release.message) {
        return Resolved(NoUpdate(release.message));
      }
      if !Truthy(release.tagName) {
        return Resolved(NoUpdate(Some(NoReleases)));
      }
      var latestVersion := RemoveFirst(release.tagName.value, 'v');
      var order := CompareVersions(latestVersion, currentVersion);
      if order > 0 {
        if release.assets.None? {
          return Rejected;
        }
        var assets := release.assets.value;
        var download := if assets == [] then None else assets[0].browserDownloadUrl;
        return Resolved(Update(latestVersion, download, release.body));
      } else {
        return Resolved(NoUpdate(None));
      }
    }
  }

  // ---------------------------------------------------------------------
  // Properties of the decision
  // ---------------------------------------------------------------------

  /** An error message from the API wins over everything else and is passed on as the error. */
  lemma ApiErrorReported(current: string, release: Release)
    requires Truthy(release.message)
    ensures Decide(current, Some(release)) == Resolved(NoUpdate(release.message))
    ensures Decide(current, Some(release)).check.error.Some?
  {
  }

  /** Without a message but without a tag, the repository has no release. */
  lemma MissingTagReported(current: string, release: Release)
    requires !Truthy(release.message) && !Truthy(release.tagName)
    ensures Decide(current, Some(release)) == Resolved(NoUpdate(Some(NoReleases)))
  {
  }

  /**
    `hasUpdate` is true exactly when there is no error message, there is a tag,
    and the tag without its first `v` compares greater than the current
    version; the update then carries that version, the first asset's link and
    the release notes.
  */
  lemma UpdateExactlyWhenNewer(current: string, release: Release)
    ensures Decide(current, Some(release)).Resolved? && Decide(current, Some(release)).check.Update? <==>
      !Truthy(release.message) && Truthy(release.tagName) && release.assets.Some? &&
      Compare(RemoveFirst(release.tagName.value, 'v'), current) > 0
    ensures Decide(current, Some(release)).Resolved? && Decide(current, Some(release)).check.Update? ==>
      Decide(current, Some(release)).check ==
      Update(RemoveFirst(release.tagName.value, 'v'), FirstDownload(release.assets.value), release.body)
  {
  }

  /** Only a parse failure, or a newer release without an `assets` array, rejects the promise. */
  lemma RejectedCases(current: string, parsed: Option<Release>)
    ensures Decide(current, parsed).Rejected? <==>
      parsed.None? ||
      (!Truthy(parsed.value.message) && Truthy(parsed.value.tagName) && parsed.value.assets.None? &&
       Compare(RemoveFirst(parsed.value.tagName.value, 'v'), current) > 0)
  {
  }

  /** A release tagged with the installed version is not an update: the comparison is reflexive. */
  lemma SameVersionNoUpdate(current: string, release: Release)
    requires !Truthy(release.message) && release.tagName == Some("v" + current) && 'v' !in current
    ensures Decide(current, Some(release)) == Resolved(NoUpdate(None))
  {
    LeadingV(current);
    CompareReflexive(current);
  }

  /** A release tagged `vX.Y.Z` is an update exactly when `(X, Y, Z)` is lexicographically above the installed triple. */
  lemma NewerTriple(release: Release, latest: (nat, nat, nat), installed: (nat, nat, nat))
    requires !Truthy(release.message) && release.assets.Some?
    requires release.tagName == Some("v" + Version(latest.0, latest.1, latest.2))
    ensures Decide(Version(installed.0, installed.1, installed.2), Some(release)).check.Update? <==>
      Lexicographic(latest, installed) == 1
  {
    var tag := Version(latest.0, latest.1, latest.2);
    VersionHasNoV(latest.0, latest.1, latest.2);
    LeadingV(tag);
    CompareWellFormed(latest, installed);
  }
}
