/**
  The page's update checker: it holds the configuration loaded from
  `update-config.json` and, when asked to check, shows a notification if the
  latest release's tag is newer than the configured version.

  The requests (`fetch`, `response.json()`), the timer and the notification's
  DOM are outside the model: loading starts from the parsed configuration, or
  None when it could not be fetched or parsed, and a check starts from the
  parsed release and ends with the notice it would show.
*/
module UpdateNotices {
  import opened Wrappers
  import opened Versions
  import Updates

  /** The fields of `update-config.json` the checker reads. */
  datatype UpdateConfig = UpdateConfig(version: Option<string>, updateUrl: Option<string>, autoCheck: bool)

  /** The fields of the release object the check reads. */
  datatype ReleaseInfo = ReleaseInfo(tagName: Option<string>, htmlUrl: Option<string>)

  /** The arguments of `showUpdateNotification`. */
  datatype Notice = Notice(version: string, url: Option<string>)

  /**
    The notification `checkForUpdates` shows for `config` and the parsed
    release (None: the request or the parsing failed). A missing tag or a
    missing configured version is a TypeError the `catch` swallows.
  */
  function Notify(config: Option<UpdateConfig>, release: Option<ReleaseInfo>): Option<Notice> {
    if config.None? || release.None? || release.value.tagName.None? || config.value.version.None? then None
    else
      var latest := RemoveFirst(release.value.tagName.value, 'v');
      if Compare(latest, config.value.version.value) > 0 then Some(Notice(latest, release.value.htmlUrl))
      else None
  }

  /** `class UpdateChecker`. */
  class UpdateChecker {
    var config: Option<UpdateConfig>

    /** `this.config = null`; the `loadConfig()` it starts completes later, as a call of `LoadConfig`. */
    constructor ()
      ensures config == None
    {
      config := None;
    }

    /**
      The end of `loadConfig()`: a parsed configuration replaces the current
      one, a failure leaves it as it was. The result says whether a first
      check is started (`autoCheck`).
    */
    method LoadConfig(loaded: Option<UpdateConfig>) returns (checkNow: bool)
      modifies this
      ensures config == (if loaded.Some? then loaded else old(config))
      ensures checkNow <==> loaded.Some? && loaded.value.autoCheck
    {
      if loaded.None? {
        return false;
      }
      config := loaded;
      checkNow := config.value.autoCheck;
    }

    /** `checkForUpdates()`, from the parsed release to the notification it shows. */
    method CheckForUpdates(release: Option<ReleaseInfo>) returns (notice: Option<Notice>)
      ensures notice == Notify(config, release)
    {
      if config.None? {
        return None;
      }
      if release.None? || release.value.tagName.None? {
        return None;
      }
      var latestVersion := RemoveFirst(release.value.tagName.value, 'v');
      if config.value.version.None? {
        return None;
      }
      var order := CompareVersions(latestVersion, config.value.version.value);
      if order > 0 {
        notice := Some(Notice(latestVersion, release.value.htmlUrl));
      } else {
        notice := None;
      }
    }
  }

  // ---------------------------------------------------------------------
  // Properties of the notification
  // ---------------------------------------------------------------------

  /** Nothing is shown before a configuration has been loaded. */
  lemma NoConfigNoNotice(release: Option<ReleaseInfo>)
    ensures Notify(None, release) == None
  {
  }

  /**
    A notification appears exactly when the stripped tag compares strictly
    greater than the configured version, and it names that stripped tag and
    the release page.
  */
  lemma NoticeExactlyWhenNewer(config: UpdateConfig, release: ReleaseInfo)
    requires config.version.Some? && release.tagName.Some?
    ensures Notify(Some(config), Some(release)).Some? <==>
      Compare(RemoveFirst(release.tagName.value, 'v'), config.version.value) > 0
    ensures Notify(Some(config), Some(release)).Some? ==>
      Notify(Some(config), Some(release)) == Some(Notice(RemoveFirst(release.tagName.value, 'v'), release.htmlUrl))
  {
  }

  /** The same release never notifies twice over: a tag equal to the configured version is not newer. */
  lemma SameVersionNoNotice(config: UpdateConfig, release: ReleaseInfo)
    requires config.version.Some? && 'v' !in config.version.value
    requires release.tagName == Some("v" + config.version.value)
    ensures Notify(Some(config), Some(release)) == None
  {
    LeadingV(config.version.value);
    CompareReflexive(config.version.value);
  }

  /**
    The page and the desktop updater agree: for a non-empty tag, the page
    shows a notice exactly when the updater, asked about the same tag with the
    configured version installed, reports an update.
  */
  lemma AgreesWithUpdater(config: UpdateConfig, release: ReleaseInfo, assets: seq<Updates.Asset>, body: Option<string>)
    requires config.version.Some? && release.tagName.Some? && release.tagName.value != ""
    ensures Notify(Some(config), Some(release)).Some? <==>
      Updates.Decide(config.version.value,
        Some(Updates.Release(None, release.tagName, Some(assets), body))).check.Update?
  {
  }
}
