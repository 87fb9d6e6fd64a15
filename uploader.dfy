/**
 * The `LeoUploader` object of script.py: the config it was built from and
 * the list of failed uploads it collects, updated in place by its methods.
 * Every method is proved against the value-level functions of Sync and
 * Intake, whose properties are proved there.
 */
module Uploader {
  import opened Options
  import opened Ordering
  import opened Timestamps
  import opened Links
  import opened Sync
  import opened Intake

  /** The dict `save_config` writes as JSON. */
  datatype Config = Config(apiKey: string, email: string, password: string, channels: seq<Channel>, extraVideos: seq<QueuedVideo>)

  /** What `load_new_videos` leaves in a channel: the search result, or the old entry on HttpError (None). */
  function Loaded(c: Channel, search: Channel -> Option<seq<Video>>): (r: Channel)
    ensures r.id == c.id && r.name == c.name && r.lastRefresh == c.lastRefresh
    ensures r.newVideos == if search(c).Some? then search(c) else c.newVideos
  {
    match search(c)
    case None => c
    case Some(vs) => c.(newVideos := Some(vs))
  }

  /** `load_new_videos` over the whole list of channels. */
  function LoadedAll(cs: seq<Channel>, search: Channel -> Option<seq<Video>>): (r: seq<Channel>)
    ensures |r| == |cs| && forall i | 0 <= i < |cs| :: r[i] == Loaded(cs[i], search)
  {
    seq(|cs|, i requires 0 <= i < |cs| => Loaded(cs[i], search))
  }

  /**
   * The browser session `_upload_video` drives. What an attempt to publish
   * a record comes to is `outcome`'s answer for the number of attempts the
   * session has made before it and the record.
   */
  class Browser {
    const outcome: UploadOracle
    var tries: nat

    /** `webdriver.Chrome()`: a session that has attempted nothing yet. */
    constructor (outcome: UploadOracle)
      ensures this.outcome == outcome && tries == 0
    {
      this.outcome := outcome;
      tries := 0;
    }

    /** `_upload_video`: one attempt to publish the record. */
    method Publish(q: QueuedVideo) returns (a: Attempt)
      modifies this
      ensures a == outcome(old(tries), q) && tries == old(tries) + 1
    {
      a := outcome(tries, q);
      tries := tries + 1;
    }
  }

  class LeoUploader {
    const email: string
    const password: string
    const apiKey: string
    const driver: Browser
    var channels: seq<Channel>
    var extraVideos: seq<QueuedVideo>
    var erroneousVideos: seq<QueuedVideo>

    /** `__init__` after the config is read: no failures yet, and a new browser session. */
    constructor (email: string, password: string, apiKey: string, channels: seq<Channel>, extraVideos: seq<QueuedVideo>, outcome: UploadOracle)
      ensures this.email == email && this.password == password && this.apiKey == apiKey
      ensures this.channels == channels && this.extraVideos == extraVideos
      ensures erroneousVideos == []
      ensures fresh(driver) && driver.outcome == outcome && driver.tries == 0
    {
      this.email := email;
      this.password := password;
      this.apiKey := apiKey;
      this.channels := channels;
      this.extraVideos := extraVideos;
      erroneousVideos := [];
      driver := new Browser(outcome);
    }

    /** `load_new_videos`: each channel gets the videos its search finds; a failed search leaves it as it was. */
    method LoadNewVideos(search: Channel -> Option<seq<Video>>)
      modifies this
      ensures |channels| == |old(channels)|
      ensures forall i | 0 <= i < |channels| :: channels[i] == Loaded(old(channels)[i], search)
      ensures extraVideos == old(extraVideos) && erroneousVideos == old(erroneousVideos)
    {
      var i := 0;
      while i < |channels|
        invariant 0 <= i <= |channels| == |old(channels)|
        invariant forall k | 0 <= k < i :: channels[k] == Loaded(old(channels)[k], search)
        invariant forall k | i <= k < |channels| :: channels[k] == old(channels)[k]
        invariant extraVideos == old(extraVideos) && erroneousVideos == old(erroneousVideos)
      {
        var found := search(channels[i]);
        if found.Some? {
          channels := channels[i := channels[i].(newVideos := found)];
        }
        i := i + 1;
      }
    }

    /**
     * `any_videos_to_upload`: None where it raises KeyError. False exactly
     * when no channel has a new video and no video is queued.
     */
    function AnyVideosToUpload(): (r: Option<bool>)
      reads this
      ensures r == Some(false) <==> extraVideos == [] && forall i | 0 <= i < |channels| :: channels[i].newVideos == Some([])
    {
      NothingToUpload(channels, extraVideos);
      Sync.AnyVideosToUpload(channels, extraVideos)
    }

    /**
     * `_upload_video_wrapper`: one attempt; a failure (AttributeError) is
     * queued once, then reported to the caller, which goes on.
     */
    method UploadVideoWrapper(q: QueuedVideo) returns (a: Attempt)
      modifies this, driver
      ensures a == driver.outcome(old(driver.tries), q) && driver.tries == old(driver.tries) + 1
      ensures a == Failed ==> erroneousVideos == old(erroneousVideos) + [q]
      ensures a != Failed ==> erroneousVideos == old(erroneousVideos)
      ensures channels == old(channels) && extraVideos == old(extraVideos)
    {
      a := driver.Publish(q);
      if a == Failed {
        erroneousVideos := erroneousVideos + [q];
      }
    }

    /**
     * One pass of the inner loop of `add_new_videos`, for video v of
     * channel i: upload, queue a failure, then move the channel's
     * watermark past the video, unless an exception escapes first.
     */
    method AttemptVideoAt(i: nat, name: string, v: Video) returns (status: Status)
      requires i < |channels|
      modifies this, driver
      ensures var p0 := Progress(old(channels)[i].lastRefresh, old(erroneousVideos), old(driver.tries), Running);
        var p := AttemptVideo(p0, name, v, driver.outcome, NextWatermark);
        && channels == old(channels)[i := old(channels)[i].(lastRefresh := p.lastRefresh)]
        && erroneousVideos == p.errs && driver.tries == p.tries && status == p.status
      ensures extraVideos == old(extraVideos)
    {
      var a := UploadVideoWrapper(Record(name, v));
      if a == NetworkError {
        return Aborted(NetworkDown);
      }
      var w := NextWatermark(v.publishedAt);
      if w == None {
        return Aborted(BadTimestamp);
      }
      channels := channels[i := channels[i].(lastRefresh := w.value)];
      status := Running;
    }

    /**
     * The body of the outer loop of `add_new_videos` for channel i: its new
     * videos in publication order, the watermark moved after each.
     */
    method SyncChannelAt(i: nat) returns (status: Status)
      requires i < |channels|
      modifies this, driver
      ensures var r := SyncChannel(old(channels)[i], old(erroneousVideos), old(driver.tries), driver.outcome, NextWatermark);
        && channels == old(channels)[i := r.channels[0]]
        && erroneousVideos == r.errs && driver.tries == r.tries && status == r.status
      ensures extraVideos == old(extraVideos)
    {
      var c := channels[i];
      if c.newVideos == None {
        return Aborted(MissingNewVideos);
      }
      status := AttemptVideosAt(i, c.name, SortByPublished(c.newVideos.value));
    }

    /**
     * The inner loop of `add_new_videos` over the sorted videos `vs` of
     * channel i, until an exception other than AttributeError escapes.
     */
    method AttemptVideosAt(i: nat, name: string, vs: seq<Video>) returns (status: Status)
      requires i < |channels|
      modifies this, driver
      ensures var p0 := Progress(old(channels)[i].lastRefresh, old(erroneousVideos), old(driver.tries), Running);
        var p := AttemptVideos(p0, name, vs, driver.outcome, NextWatermark);
        && channels == old(channels)[i := old(channels)[i].(lastRefresh := p.lastRefresh)]
        && erroneousVideos == p.errs && driver.tries == p.tries && status == p.status
      ensures extraVideos == old(extraVideos)
    {
      ghost var c := channels[i];
      ghost var p0 := Progress(c.lastRefresh, erroneousVideos, driver.tries, Running);
      var j := 0;
      while j < |vs|
        invariant 0 <= j <= |vs| && i < |channels|
        invariant AttemptVideos(p0, name, vs[..j], driver.outcome, NextWatermark)
               == Progress(channels[i].lastRefresh, erroneousVideos, driver.tries, Running)
        invariant channels == old(channels)[i := c.(lastRefresh := channels[i].lastRefresh)]
        invariant extraVideos == old(extraVideos)
      {
        AttemptVideosNext(p0, name, vs, j, driver.outcome, NextWatermark);
        status := AttemptVideoAt(i, name, vs[j]);
        if status.Aborted? {
          AttemptVideosStopped(p0, name, vs, j + 1, driver.outcome, NextWatermark);
          return;
        }
        j := j + 1;
      }
      assert vs[..j] == vs;
      status := Running;
    }

    /**
     * `add_new_videos`: the channels in order, until an exception other
     * than AttributeError escapes.
     */
    method AddNewVideos() returns (status: Status)
      modifies this, driver
      ensures var r := SyncChannels(old(channels), old(erroneousVideos), old(driver.tries), driver.outcome, NextWatermark);
        channels == r.channels && erroneousVideos == r.errs && driver.tries == r.tries && status == r.status
      ensures extraVideos == old(extraVideos)
    {
      ghost var cs0, errs0, tries0 := channels, erroneousVideos, driver.tries;
      var i := 0;
      while i < |channels|
        invariant 0 <= i <= |cs0|
        invariant var s := SyncChannels(cs0[..i], errs0, tries0, driver.outcome, NextWatermark);
          && s.status == Running && erroneousVideos == s.errs && driver.tries == s.tries
          && channels == s.channels + cs0[i..]
        invariant extraVideos == old(extraVideos)
      {
        ghost var s := SyncChannels(cs0[..i], errs0, tries0, driver.outcome, NextWatermark);
        SyncChannelsNext(cs0, errs0, tries0, i, driver.outcome, NextWatermark);
        ReplaceAt(s.channels, cs0[i..]);
        status := SyncChannelAt(i);
        assert cs0[i..][1..] == cs0[i + 1..];
        if status.Aborted? {
          SyncChannelsStopped(cs0, errs0, tries0, i + 1, driver.outcome, NextWatermark);
          return;
        }
        i := i + 1;
      }
      assert cs0[..i] == cs0;
      status := Running;
    }

    /** `add_extra_videos`: every queued video again, until a network error. */
    method AddExtraVideos() returns (status: Status)
      modifies this, driver
      ensures var p := RetryExtras(extraVideos, old(erroneousVideos), old(driver.tries), driver.outcome);
        erroneousVideos == p.errs && driver.tries == p.tries && status == p.status
      ensures channels == old(channels) && extraVideos == old(extraVideos)
    {
      ghost var errs0, tries0 := erroneousVideos, driver.tries;
      var k := 0;
      while k < |extraVideos|
        invariant 0 <= k <= |extraVideos|
        invariant RetryExtras(extraVideos[..k], errs0, tries0, driver.outcome) == Retry(erroneousVideos, driver.tries, Running)
        invariant channels == old(channels) && extraVideos == old(extraVideos)
      {
        var e := extraVideos[k];
        RetryExtrasNext(extraVideos, errs0, tries0, k, driver.outcome);
        var a := UploadVideoWrapper(e);
        if a == NetworkError {
          RetryExtrasStopped(extraVideos, errs0, tries0, k + 1, driver.outcome);
          return Aborted(NetworkDown);
        }
        k := k + 1;
      }
      assert extraVideos[..k] == extraVideos;
      status := Running;
    }

    /**
     * `save_config`: the given videos join the failures, and the dict to
     * write holds the credentials, the channels and the failures as the
     * next run's queue.
     */
    method SaveConfig(extra: Option<seq<QueuedVideo>>) returns (cfg: Config)
      modifies this
      ensures erroneousVideos == old(erroneousVideos) + (if extra.Some? then extra.value else [])
      ensures cfg == Config(apiKey, email, password, channels, erroneousVideos)
      ensures channels == old(channels) && extraVideos == old(extraVideos)
    {
      if extra.Some? {
        erroneousVideos := erroneousVideos + extra.value;
      }
      cfg := Config(apiKey, email, password, channels, erroneousVideos);
    }

    /**
     * `write_extra_videos`: every URL's id first; a URL without one stops
     * it before any lookup or save (None). Then one record per id, saved
     * after the current queue.
     */
    method WriteExtraVideos(urls: seq<string>, lookup: string -> VideoInfo) returns (cfg: Option<Config>)
      modifies this
      ensures VideoIds(urls, ExtractVideoId).None? ==> cfg == None && erroneousVideos == old(erroneousVideos)
      ensures VideoIds(urls, ExtractVideoId).Some? ==>
        && erroneousVideos == old(erroneousVideos) + old(extraVideos) + NewExtras(VideoIds(urls, ExtractVideoId).value, lookup)
        && cfg == Some(Config(apiKey, email, password, channels, erroneousVideos))
      ensures channels == old(channels) && extraVideos == old(extraVideos)
    {
      var ids := VideoIdsOf(urls);
      if ids == None {
        return None;
      }
      var added := ExtrasFor(ids.value, lookup);
      var saved := SaveConfig(Some(extraVideos + added));
      cfg := Some(saved);
    }

    /**
     * One pass of the loop of `write_new_channels`: the channel pattern
     * first, then the user pattern; a URL matching neither adds nothing.
     */
    method AddChannelFor(url: string, resolve: ChannelRef -> ChannelInfo, now: string)
      modifies this
      ensures channels == old(channels) + ChannelFromUrl(url, ExtractChannel, resolve, now)
      ensures extraVideos == old(extraVideos) && erroneousVideos == old(erroneousVideos)
    {
      var found := ExtractChannel(url);
      if found.Some? {
        channels := channels + [NewChannel(resolve(found.value), now)];
      }
    }

    /**
     * `write_new_channels`: one channel per URL that a channel pattern
     * matches, in order; the other URLs are skipped.
     */
    method WriteNewChannels(urls: seq<string>, resolve: ChannelRef -> ChannelInfo, clock: nat -> string)
      modifies this
      ensures channels == old(channels) + NewChannels(urls, ExtractChannel, resolve, clock)
      ensures extraVideos == old(extraVideos) && erroneousVideos == old(erroneousVideos)
    {
      var k := 0;
      while k < |urls|
        invariant 0 <= k <= |urls|
        invariant channels == old(channels) + NewChannels(urls[..k], ExtractChannel, resolve, clock)
        invariant extraVideos == old(extraVideos) && erroneousVideos == old(erroneousVideos)
      {
        assert urls[..k + 1][..k] == urls[..k];
        AddChannelFor(urls[k], resolve, clock(k));
        AppendAssoc(old(channels), NewChannels(urls[..k], ExtractChannel, resolve, clock), ChannelFromUrl(urls[k], ExtractChannel, resolve, clock(k)));
        k := k + 1;
      }
      assert urls[..k] == urls;
    }

    /**
     * Lines 522-528 of `main`: new videos, then the queued ones unless the
     * first stopped, and the config saved in any case.
     */
    method SyncAndSave() returns (status: Status, cfg: Config)
      modifies this, driver
      ensures var r := UploadRun(old(channels), old(extraVideos), old(erroneousVideos), old(driver.tries), driver.outcome, NextWatermark);
        && status == r.status && channels == r.channels && erroneousVideos == r.errs && driver.tries == r.tries
        && cfg == Config(apiKey, email, password, r.channels, r.errs)
      ensures extraVideos == old(extraVideos)
    {
      status := AddNewVideos();
      if status == Running {
        status := AddExtraVideos();
      }
      cfg := SaveConfig(None);
    }

    /**
     * Lines 513-528 of `main`: the channels are searched for new videos;
     * then, unless `any_videos_to_upload` raises KeyError (a channel with no
     * 'new_videos' before any with a new video), the run goes ahead and the
     * config is saved. The KeyError escapes before the `try`, so then
     * nothing is saved (None).
     */
    method UploadMain(search: Channel -> Option<seq<Video>>) returns (status: Status, cfg: Option<Config>)
      modifies this, driver
      ensures var cs := LoadedAll(old(channels), search);
        && (Sync.AnyVideosToUpload(cs, old(extraVideos)).None? ==>
              && status == Aborted(MissingNewVideos) && cfg == None
              && channels == cs && erroneousVideos == old(erroneousVideos) && driver.tries == old(driver.tries))
        && (Sync.AnyVideosToUpload(cs, old(extraVideos)).Some? ==>
              var r := UploadRun(cs, old(extraVideos), old(erroneousVideos), old(driver.tries), driver.outcome, NextWatermark);
              && status == r.status && channels == r.channels && erroneousVideos == r.errs && driver.tries == r.tries
              && cfg == Some(Config(apiKey, email, password, r.channels, r.errs)))
      ensures extraVideos == old(extraVideos)
    {
      LoadNewVideos(search);
      assert channels == LoadedAll(old(channels), search);
      if AnyVideosToUpload().None? {
        status, cfg := Aborted(MissingNewVideos), None;
      } else {
        var saved;
        status, saved := SyncAndSave();
        cfg := Some(saved);
      }
    }
  }

  /** The list comprehension of `write_extra_videos`, URL by URL. */
  method VideoIdsOf(urls: seq<string>) returns (ids: Option<seq<string>>)
    ensures ids == VideoIds(urls, ExtractVideoId)
  {
    var found := [];
    var k := 0;
    while k < |urls|
      invariant 0 <= k <= |urls|
      invariant VideoIds(urls[..k], ExtractVideoId) == Some(found)
    {
      assert urls[..k + 1][..k] == urls[..k];
      var id := ExtractVideoId(urls[k]);
      if id == None {
        VideoIdsStopped(urls, k + 1, ExtractVideoId);
        return None;
      }
      found := found + [id.value];
      k := k + 1;
    }
    assert urls[..k] == urls;
    ids := Some(found);
  }

  /** The loop of `write_extra_videos`: one record per id, from the API's answers. */
  method ExtrasFor(ids: seq<string>, lookup: string -> VideoInfo) returns (added: seq<QueuedVideo>)
    ensures added == NewExtras(ids, lookup)
  {
    added := [];
    var m := 0;
    while m < |ids|
      invariant 0 <= m <= |ids|
      invariant added == NewExtras(ids[..m], lookup)
    {
      assert ids[..m + 1][..m] == ids[..m];
      var info := lookup(ids[m]);
      added := added + [QueuedVideo(info.channelName, ids[m], info.title)];
      m := m + 1;
    }
    assert ids[..m] == ids;
  }

  /** Replacing the first element after a prefix. */
  lemma ReplaceAt<T>(a: seq<T>, b: seq<T>)
    requires b != []
    ensures forall y: T :: (a + b)[|a| := y] == a + [y] + b[1..]
    ensures (a + b)[|a|] == b[0]
  {
    forall y: T
      ensures (a + b)[|a| := y] == a + [y] + b[1..]
    {
    }
  }
}
