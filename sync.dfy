/**
 * The bookkeeping of one upload run of script.py, as values: which videos
 * are attempted in which order, where each channel's `last_refresh`
 * watermark ends up, and which records end up in `erroneous_videos`, the
 * list `save_config` persists as the next run's `extra_videos`.
 *
 * The browser upload is an oracle `upload`: the outcome of an attempt
 * depends on how many attempts came before it in the run and on the record
 * it publishes, so the same record can fail once and go through the next
 * time. An exception the loops do not catch stops the run: `main` saves
 * the config in its `finally` clause either way.
 *
 * `watermark` is the watermark stored after a video published at a given
 * time, None where `_add_one_second` raises: the uploader passes
 * Timestamps.NextWatermark. It is a parameter here so that the
 * bookkeeping proofs do not unfold calendar arithmetic.
 */
module Sync {
  import opened Options
  import opened Ordering

  /** `{channel_name, id, title}`: a video to upload, and its entry in the failure queue. */
  datatype QueuedVideo = QueuedVideo(channelName: string, id: string, title: string)

  /**
   * A channel of the config. `newVideos` is None while the key
   * 'new_videos' is absent: `load_new_videos` sets it only when the search
   * succeeds, and leaves what an earlier run saved otherwise.
   */
  datatype Channel = Channel(id: string, name: string, lastRefresh: string, newVideos: Option<seq<Video>>)

  /**
   * What one call of `_upload_video` does: the video is published, it
   * raises AttributeError (no English subtitles, form rejected), or it
   * raises anything else: TimeoutException and ServerNotFoundError, which
   * `main` catches, and any other error (URLError, NoSuchElementException,
   * ...), which escapes `main`. Either way the run ends and the `finally`
   * saves the config, so NetworkError stands for all of them.
   */
  datatype Attempt = Uploaded | Failed | NetworkError

  /**
   * Why a run stopped early: a network error (caught in `main`), a
   * published-at time `_add_one_second` cannot parse (ValueError), or a
   * channel without 'new_videos' (KeyError).
   */
  datatype Abort = NetworkDown | BadTimestamp | MissingNewVideos

  datatype Status = Running | Aborted(why: Abort)

  /** The state of the loop over one channel's videos; `tries` counts the attempts made so far. */
  datatype Progress = Progress(lastRefresh: string, errs: seq<QueuedVideo>, tries: nat, status: Status)

  /** The state of the loop over the channels. */
  datatype Run = Run(channels: seq<Channel>, errs: seq<QueuedVideo>, tries: nat, status: Status)

  /** The state of the loop over the queued videos. */
  datatype Retry = Retry(errs: seq<QueuedVideo>, tries: nat, status: Status)

  /** The outcome of attempt number n (counting from 0) when it publishes the given record. */
  type UploadOracle = (nat, QueuedVideo) -> Attempt

  type Watermark = string -> Option<string>

  /** The record `_upload_video_wrapper` queues for a video of a channel. */
  function Record(channelName: string, v: Video): QueuedVideo {
    QueuedVideo(channelName, v.id, v.title)
  }

  /**
   * `_upload_video_wrapper`: a failed upload queues the video's record; an
   * upload that succeeds, or one the network breaks, queues nothing.
   */
  function Wrap(errs: seq<QueuedVideo>, q: QueuedVideo, a: Attempt): (r: seq<QueuedVideo>)
    ensures a == Failed ==> r == errs + [q]
    ensures a != Failed ==> r == errs
  {
    errs + Queued(q, a)
  }

  /** What one attempt adds to the queue. */
  function Queued(q: QueuedVideo, a: Attempt): (r: seq<QueuedVideo>)
    ensures r == [] <==> a != Failed
  {
    if a == Failed then [q] else []
  }

  /**
   * One pass of the inner loop of `add_new_videos`: upload, catch
   * AttributeError, then move the watermark past the video.
   */
  function AttemptVideo(p: Progress, name: string, v: Video, upload: UploadOracle, watermark: Watermark): Progress {
    var q := Record(name, v);
    var a := upload(p.tries, q);
    if a == NetworkError then p.(tries := p.tries + 1, status := Aborted(NetworkDown))
    else
      var errs := Wrap(p.errs, q, a);
      match watermark(v.publishedAt)
      case None => Progress(p.lastRefresh, errs, p.tries + 1, Aborted(BadTimestamp))
      case Some(w) => Progress(w, errs, p.tries + 1, Running)
  }

  /** The inner loop over `vs`, stopped by the first uncaught exception. */
  function AttemptVideos(p: Progress, name: string, vs: seq<Video>, upload: UploadOracle, watermark: Watermark): Progress {
    if |vs| == 0 then p
    else
      var q := AttemptVideos(p, name, vs[..|vs| - 1], upload, watermark);
      if q.status.Aborted? then q else AttemptVideo(q, name, vs[|vs| - 1], upload, watermark)
  }

  /** One channel of `add_new_videos`: its new videos in publication order. */
  function SyncChannel(c: Channel, errs: seq<QueuedVideo>, tries: nat, upload: UploadOracle, watermark: Watermark): (r: Run)
    ensures |r.channels| == 1
  {
    match c.newVideos
    case None => Run([c], errs, tries, Aborted(MissingNewVideos))
    case Some(vs) =>
      var p := AttemptVideos(Progress(c.lastRefresh, errs, tries, Running), c.name, SortByPublished(vs), upload, watermark);
      Run([c.(lastRefresh := p.lastRefresh)], p.errs, p.tries, p.status)
  }

  /** `add_new_videos`: the channels in order; those after a stop are left as they are. */
  function SyncChannels(cs: seq<Channel>, errs: seq<QueuedVideo>, tries: nat, upload: UploadOracle, watermark: Watermark): (r: Run)
    ensures |r.channels| == |cs|
  {
    if |cs| == 0 then Run([], errs, tries, Running)
    else
      var s := SyncChannels(cs[..|cs| - 1], errs, tries, upload, watermark);
      if s.status.Aborted? then s.(channels := s.channels + [cs[|cs| - 1]])
      else
        var t := SyncChannel(cs[|cs| - 1], s.errs, s.tries, upload, watermark);
        Run(s.channels + t.channels, t.errs, t.tries, t.status)
  }

  /** `add_extra_videos`: every queued video again, under its own channel name. */
  function RetryExtras(extras: seq<QueuedVideo>, errs: seq<QueuedVideo>, tries: nat, upload: UploadOracle): Retry {
    if |extras| == 0 then Retry(errs, tries, Running)
    else
      var p := RetryExtras(extras[..|extras| - 1], errs, tries, upload);
      var e := extras[|extras| - 1];
      if p.status.Aborted? then p
      else if upload(p.tries, e) == NetworkError then Retry(p.errs, p.tries + 1, Aborted(NetworkDown))
      else Retry(Wrap(p.errs, e, upload(p.tries, e)), p.tries + 1, Running)
  }

  /** Lines 522-528 of `main`: new videos, then extras, unless the first stopped. */
  function UploadRun(cs: seq<Channel>, extras: seq<QueuedVideo>, errs: seq<QueuedVideo>, tries: nat, upload: UploadOracle, watermark: Watermark): Run {
    var s := SyncChannels(cs, errs, tries, upload, watermark);
    if s.status.Aborted? then s
    else
      var p := RetryExtras(extras, s.errs, s.tries, upload);
      Run(s.channels, p.errs, p.tries, p.status)
  }

  /** `any(channel['new_videos'] for channel in channels)`: None where it raises KeyError. */
  function AnyNewVideos(cs: seq<Channel>): Option<bool> {
    if cs == [] then Some(false)
    else match cs[0].newVideos
      case None => None
      case Some(vs) => if vs != [] then Some(true) else AnyNewVideos(cs[1..])
  }

  /** `any_videos_to_upload`, as a truth value. */
  function AnyVideosToUpload(cs: seq<Channel>, extras: seq<QueuedVideo>): Option<bool> {
    match AnyNewVideos(cs)
    case None => None
    case Some(b) => Some(b || extras != [])
  }

  // ---------------------------------------------------------------------
  // The specification the loops are held to. Video k of a list whose
  // first attempt is number n is attempt n + k.

  /** The records of the videos whose attempt fails, in the order attempted. */
  function Failures(name: string, vs: seq<Video>, upload: UploadOracle, n: nat): (r: seq<QueuedVideo>)
    ensures |r| <= |vs|
  {
    if |vs| == 0 then []
    else
      var m := |vs| - 1;
      Failures(name, vs[..m], upload, n) + Queued(Record(name, vs[m]), upload(n + m, Record(name, vs[m])))
  }

  /** The queued videos whose retry fails, in queue order. */
  function FailedExtras(extras: seq<QueuedVideo>, upload: UploadOracle, n: nat): (r: seq<QueuedVideo>)
    ensures |r| <= |extras|
  {
    if |extras| == 0 then []
    else
      var m := |extras| - 1;
      FailedExtras(extras[..m], upload, n) + Queued(extras[m], upload(n + m, extras[m]))
  }

  /** The attempts one channel makes when it does not raise. */
  function OwnAttempts(c: Channel): nat {
    if c.newVideos.Some? then |c.newVideos.value| else 0
  }

  /** The attempts the channels make when none of them raises. */
  function Attempts(cs: seq<Channel>): nat {
    if |cs| == 0 then 0 else Attempts(cs[..|cs| - 1]) + OwnAttempts(cs[|cs| - 1])
  }

  /** One channel's failures when its first attempt is number n; none without 'new_videos'. */
  function OwnFailures(c: Channel, upload: UploadOracle, n: nat): seq<QueuedVideo> {
    if c.newVideos.Some? then Failures(c.name, SortByPublished(c.newVideos.value), upload, n) else []
  }

  /** Each channel as it ends when synced alone from its own first attempt. */
  function AloneChannels(cs: seq<Channel>, upload: UploadOracle, watermark: Watermark, n: nat): (r: seq<Channel>)
    ensures |r| == |cs|
  {
    if |cs| == 0 then []
    else
      var init := cs[..|cs| - 1];
      AloneChannels(init, upload, watermark, n) + SyncChannel(cs[|cs| - 1], [], n + Attempts(init), upload, watermark).channels
  }

  /** Every channel's failures, channel after channel. */
  function ChannelFailures(cs: seq<Channel>, upload: UploadOracle, n: nat): seq<QueuedVideo> {
    if |cs| == 0 then []
    else
      var init := cs[..|cs| - 1];
      ChannelFailures(init, upload, n) + OwnFailures(cs[|cs| - 1], upload, n + Attempts(init))
  }

  /** No attempt of the list meets a network error, and every watermark parses. */
  predicate CompletesVideos(name: string, vs: seq<Video>, upload: UploadOracle, watermark: Watermark, n: nat) {
    |vs| == 0 ||
      var m := |vs| - 1;
      && CompletesVideos(name, vs[..m], upload, watermark, n)
      && upload(n + m, Record(name, vs[m])) != NetworkError
      && watermark(vs[m].publishedAt).Some?
  }

  /** Every channel has its 'new_videos' and they all go through, each channel's attempts after the previous one's. */
  predicate CompletesChannels(cs: seq<Channel>, upload: UploadOracle, watermark: Watermark, n: nat) {
    |cs| == 0 ||
      var init, c := cs[..|cs| - 1], cs[|cs| - 1];
      && CompletesChannels(init, upload, watermark, n)
      && c.newVideos.Some?
      && CompletesVideos(c.name, SortByPublished(c.newVideos.value), upload, watermark, n + Attempts(init))
  }

  /**
   * The inner loop stops at video j: every video before it goes through,
   * and attempt n + j meets a network error or a published-at time that
   * does not parse.
   */
  predicate StopsAt(name: string, vs: seq<Video>, upload: UploadOracle, watermark: Watermark, n: nat, j: nat) {
    && j < |vs|
    && CompletesVideos(name, vs[..j], upload, watermark, n)
    && (upload(n + j, Record(name, vs[j])) == NetworkError || watermark(vs[j].publishedAt).None?)
  }

  /** No retry of the queue meets a network error. */
  predicate CompletesExtras(extras: seq<QueuedVideo>, upload: UploadOracle, n: nat) {
    |extras| == 0 ||
      var m := |extras| - 1;
      CompletesExtras(extras[..m], upload, n) && upload(n + m, extras[m]) != NetworkError
  }

  // ---------------------------------------------------------------------
  // One more step of each loop, as the imperative loops take it.

  lemma {:induction false} AttemptVideosNext(p: Progress, name: string, vs: seq<Video>, j: nat, upload: UploadOracle, watermark: Watermark)
    requires j < |vs| && AttemptVideos(p, name, vs[..j], upload, watermark).status == Running
    ensures AttemptVideos(p, name, vs[..j + 1], upload, watermark)
         == AttemptVideo(AttemptVideos(p, name, vs[..j], upload, watermark), name, vs[j], upload, watermark)
  {
    assert vs[..j + 1][..j] == vs[..j];
  }

  lemma {:induction false} SyncChannelsNext(cs: seq<Channel>, errs: seq<QueuedVideo>, tries: nat, i: nat, upload: UploadOracle, watermark: Watermark)
    requires i < |cs| && SyncChannels(cs[..i], errs, tries, upload, watermark).status == Running
    ensures var s := SyncChannels(cs[..i], errs, tries, upload, watermark);
      var t := SyncChannel(cs[i], s.errs, s.tries, upload, watermark);
      SyncChannels(cs[..i + 1], errs, tries, upload, watermark) == Run(s.channels + t.channels, t.errs, t.tries, t.status)
  {
    assert cs[..i + 1][..i] == cs[..i];
  }

  lemma {:induction false} RetryExtrasNext(extras: seq<QueuedVideo>, errs: seq<QueuedVideo>, tries: nat, k: nat, upload: UploadOracle)
    requires k < |extras| && RetryExtras(extras[..k], errs, tries, upload).status == Running
    ensures var p := RetryExtras(extras[..k], errs, tries, upload);
      var a := upload(p.tries, extras[k]);
      RetryExtras(extras[..k + 1], errs, tries, upload)
        == if a == NetworkError then Retry(p.errs, p.tries + 1, Aborted(NetworkDown))
           else Retry(Wrap(p.errs, extras[k], a), p.tries + 1, Running)
  {
    assert extras[..k + 1][..k] == extras[..k];
  }

  // ---------------------------------------------------------------------
  // Properties of the loop over one channel's videos.

  /** Once stopped, the inner loop changes nothing more. */
  lemma {:induction false} AttemptVideosStopped(p: Progress, name: string, vs: seq<Video>, k: nat, upload: UploadOracle, watermark: Watermark)
    requires k <= |vs| && AttemptVideos(p, name, vs[..k], upload, watermark).status.Aborted?
    ensures AttemptVideos(p, name, vs, upload, watermark) == AttemptVideos(p, name, vs[..k], upload, watermark)
  {
    if k < |vs| {
      var n := |vs| - 1;
      assert vs[..n][..k] == vs[..k];
      AttemptVideosStopped(p, name, vs[..n], k, upload, watermark);
    } else {
      assert vs[..k] == vs;
    }
  }

  /** What one attempt does to the state of the inner loop. */
  lemma {:induction false} AttemptVideoEffect(p: Progress, name: string, v: Video, upload: UploadOracle, watermark: Watermark)
    ensures var q := AttemptVideo(p, name, v, upload, watermark);
      var r := Record(name, v);
      && q.errs == p.errs + Queued(r, upload(p.tries, r))
      && q.tries == p.tries + 1
      && (q.status == Running <==> upload(p.tries, r) != NetworkError && watermark(v.publishedAt).Some?)
      && (q.status == Running ==> q.lastRefresh == watermark(v.publishedAt).value)
      && (q.status.Aborted? ==> q.lastRefresh == p.lastRefresh)
  {
  }

  /** The failures of one more video. */
  lemma {:induction false} FailuresNext(name: string, vs: seq<Video>, upload: UploadOracle, n: nat)
    requires vs != []
    ensures var m := |vs| - 1;
      var r := Record(name, vs[m]);
      Failures(name, vs, upload, n) == Failures(name, vs[..m], upload, n) + Queued(r, upload(n + m, r))
  {
  }

  /**
   * The inner loop runs to the end exactly when no attempt raises. It then
   * has queued exactly the failed videos in the order tried, made one
   * attempt per video, and left the watermark one second after the last
   * video's whole second (unchanged when there are no videos).
   */
  lemma {:induction false} AttemptVideosComplete(p: Progress, name: string, vs: seq<Video>, upload: UploadOracle, watermark: Watermark)
    requires p.status == Running
    ensures var q := AttemptVideos(p, name, vs, upload, watermark);
      && (q.status == Running <==> CompletesVideos(name, vs, upload, watermark, p.tries))
      && (q.status == Running ==>
            && q.errs == p.errs + Failures(name, vs, upload, p.tries)
            && q.tries == p.tries + |vs|
            && q.lastRefresh == if vs == [] then p.lastRefresh else watermark(vs[|vs| - 1].publishedAt).value)
  {
    if vs != [] {
      var m := |vs| - 1;
      AttemptVideosComplete(p, name, vs[..m], upload, watermark);
      var q0 := AttemptVideos(p, name, vs[..m], upload, watermark);
      if q0.status == Running {
        var f0 := Failures(name, vs[..m], upload, p.tries);
        var r := Record(name, vs[m]);
        AttemptVideoEffect(q0, name, vs[m], upload, watermark);
        FailuresNext(name, vs, upload, p.tries);
        AppendAssoc(p.errs, f0, Queued(r, upload(p.tries + m, r)));
      }
    }
  }

  /**
   * When the inner loop stops, it stops at some video j (StopsAt), and the
   * watermark is the one set after video j - 1, or the starting one when j
   * is 0: `channel['last_refresh']` keeps the value of the last video that
   * went through, and that is what `save_config` writes.
   */
  lemma AttemptVideosAborted(p: Progress, name: string, vs: seq<Video>, upload: UploadOracle, watermark: Watermark)
    requires p.status == Running && AttemptVideos(p, name, vs, upload, watermark).status.Aborted?
    ensures var q := AttemptVideos(p, name, vs, upload, watermark);
      exists j | 0 <= j < |vs| ::
        && StopsAt(name, vs, upload, watermark, p.tries, j)
        && q.tries == p.tries + j + 1
        && q.lastRefresh == if j == 0 then p.lastRefresh else watermark(vs[j - 1].publishedAt).value
  {
    var j := StopIndex(p, name, vs, upload, watermark);
  }

  /** The video at which a stopped inner loop stops, found by induction on the list. */
  lemma {:induction false} StopIndex(p: Progress, name: string, vs: seq<Video>, upload: UploadOracle, watermark: Watermark) returns (j: nat)
    requires p.status == Running && AttemptVideos(p, name, vs, upload, watermark).status.Aborted?
    ensures var q := AttemptVideos(p, name, vs, upload, watermark);
      && StopsAt(name, vs, upload, watermark, p.tries, j)
      && q.tries == p.tries + j + 1
      && q.lastRefresh == if j == 0 then p.lastRefresh else watermark(vs[j - 1].publishedAt).value
  {
    var n := |vs| - 1;
    if AttemptVideos(p, name, vs[..n], upload, watermark).status.Aborted? {
      j := StopIndex(p, name, vs[..n], upload, watermark);
      AttemptVideosAbortedBefore(p, name, vs, upload, watermark, j);
    } else {
      AttemptVideosAbortedLast(p, name, vs, upload, watermark);
      j := n;
    }
  }

  /** AttemptVideosAborted when the loop reaches the last video: it stops there. */
  lemma {:induction false} AttemptVideosAbortedLast(p: Progress, name: string, vs: seq<Video>, upload: UploadOracle, watermark: Watermark)
    requires p.status == Running && vs != []
    requires AttemptVideos(p, name, vs[..|vs| - 1], upload, watermark).status == Running
    requires AttemptVideos(p, name, vs, upload, watermark).status.Aborted?
    ensures var q, n := AttemptVideos(p, name, vs, upload, watermark), |vs| - 1;
      && StopsAt(name, vs, upload, watermark, p.tries, n)
      && q.tries == p.tries + n + 1
      && q.lastRefresh == if n == 0 then p.lastRefresh else watermark(vs[n - 1].publishedAt).value
  {
    var n := |vs| - 1;
    var q0 := AttemptVideos(p, name, vs[..n], upload, watermark);
    AttemptVideosComplete(p, name, vs[..n], upload, watermark);
    AttemptVideoEffect(q0, name, vs[n], upload, watermark);
    if n > 0 {
      assert vs[..n][n - 1] == vs[n - 1];
    }
  }

  /** AttemptVideosAborted when the loop stops before the last video: the last one changes nothing. */
  lemma {:induction false} AttemptVideosAbortedBefore(p: Progress, name: string, vs: seq<Video>, upload: UploadOracle, watermark: Watermark, j: nat)
    requires p.status == Running && j < |vs| - 1
    requires var q0, n := AttemptVideos(p, name, vs[..|vs| - 1], upload, watermark), |vs| - 1;
      && q0.status.Aborted?
      && StopsAt(name, vs[..n], upload, watermark, p.tries, j)
      && q0.tries == p.tries + j + 1
      && q0.lastRefresh == if j == 0 then p.lastRefresh else watermark(vs[..n][j - 1].publishedAt).value
    ensures var q := AttemptVideos(p, name, vs, upload, watermark);
      && StopsAt(name, vs, upload, watermark, p.tries, j)
      && q.tries == p.tries + j + 1
      && q.lastRefresh == if j == 0 then p.lastRefresh else watermark(vs[j - 1].publishedAt).value
  {
    var n := |vs| - 1;
    assert vs[..n][..j] == vs[..j];
    assert vs[..n][j] == vs[j];
    if j > 0 {
      assert vs[..n][j - 1] == vs[j - 1];
    }
  }

  /**
   * Stopped or not, the inner loop has queued exactly the failures among
   * the videos it attempted: the first `q.tries - p.tries` of the list.
   */
  lemma {:induction false} AttemptVideosQueue(p: Progress, name: string, vs: seq<Video>, upload: UploadOracle, watermark: Watermark)
    requires p.status == Running
    ensures var q := AttemptVideos(p, name, vs, upload, watermark);
      && p.tries <= q.tries <= p.tries + |vs|
      && q.errs == p.errs + Failures(name, vs[..q.tries - p.tries], upload, p.tries)
  {
    if vs == [] {
      assert vs[..0] == [];
    } else {
      var m := |vs| - 1;
      var q0 := AttemptVideos(p, name, vs[..m], upload, watermark);
      if q0.status.Aborted? {
        AttemptVideosQueue(p, name, vs[..m], upload, watermark);
        assert vs[..m][..q0.tries - p.tries] == vs[..q0.tries - p.tries];
      } else {
        AttemptVideosQueueLast(p, name, vs, upload, watermark);
        assert vs[..|vs|] == vs;
      }
    }
  }

  /** AttemptVideosQueue when the loop reaches the last video. */
  lemma {:induction false} AttemptVideosQueueLast(p: Progress, name: string, vs: seq<Video>, upload: UploadOracle, watermark: Watermark)
    requires p.status == Running && vs != []
    requires AttemptVideos(p, name, vs[..|vs| - 1], upload, watermark).status == Running
    ensures var q := AttemptVideos(p, name, vs, upload, watermark);
      q.tries == p.tries + |vs| && q.errs == p.errs + Failures(name, vs, upload, p.tries)
  {
    var m := |vs| - 1;
    var q0 := AttemptVideos(p, name, vs[..m], upload, watermark);
    var r := Record(name, vs[m]);
    var f0 := Failures(name, vs[..m], upload, p.tries);
    var tail := Queued(r, upload(p.tries + m, r));
    var q := AttemptVideo(q0, name, vs[m], upload, watermark);
    assert AttemptVideos(p, name, vs, upload, watermark) == q;
    AttemptVideosComplete(p, name, vs[..m], upload, watermark);
    assert q0.errs == p.errs + f0 && q0.tries == p.tries + m;
    AttemptVideoEffect(q0, name, vs[m], upload, watermark);
    assert q.errs == q0.errs + tail && q.tries == q0.tries + 1;
    FailuresNext(name, vs, upload, p.tries);
    AppendAssoc(p.errs, f0, tail);
  }

  /** The failures among the first j videos are the first failures of the whole list. */
  lemma {:induction false} FailuresTake(name: string, vs: seq<Video>, j: nat, upload: UploadOracle, n: nat)
    requires j <= |vs|
    ensures var f := Failures(name, vs[..j], upload, n);
      |f| <= |Failures(name, vs, upload, n)| && f == Failures(name, vs, upload, n)[..|f|]
  {
    if j == |vs| {
      assert vs[..j] == vs;
    } else {
      var m := |vs| - 1;
      FailuresTake(name, vs[..m], j, upload, n);
      assert vs[..m][..j] == vs[..j];
      FailuresNext(name, vs, upload, n);
      var r := Record(name, vs[m]);
      TakeAppend(Failures(name, vs[..m], upload, n), Queued(r, upload(n + m, r)), |Failures(name, vs[..j], upload, n)|);
    }
  }

  /** Which records the failures are: video k's record, when attempt n + k of it fails. */
  lemma {:induction false} FailuresMembers(name: string, vs: seq<Video>, upload: UploadOracle, n: nat, x: QueuedVideo)
    ensures x in Failures(name, vs, upload, n)
        <==> exists k | 0 <= k < |vs| :: x == Record(name, vs[k]) && upload(n + k, x) == Failed
  {
    if x in Failures(name, vs, upload, n) {
      FailuresFrom(name, vs, upload, n, x);
    }
    if k :| 0 <= k < |vs| && x == Record(name, vs[k]) && upload(n + k, x) == Failed {
      FailuresHas(name, vs, upload, n, k);
    }
  }

  /** Whatever the failures hold is the record of a video whose attempt failed. */
  lemma {:induction false} FailuresFrom(name: string, vs: seq<Video>, upload: UploadOracle, n: nat, x: QueuedVideo)
    requires x in Failures(name, vs, upload, n)
    ensures exists k | 0 <= k < |vs| :: x == Record(name, vs[k]) && upload(n + k, x) == Failed
  {
    var m := |vs| - 1;
    FailuresNextMember(name, vs, upload, n, x);
    if x in Failures(name, vs[..m], upload, n) {
      FailuresFrom(name, vs[..m], upload, n, x);
      var k :| 0 <= k < m && x == Record(name, vs[..m][k]) && upload(n + k, x) == Failed;
      assert vs[..m][k] == vs[k];
    } else {
      assert x == Record(name, vs[m]) && upload(n + m, x) == Failed;
    }
  }

  /** A video whose attempt fails has its record among the failures. */
  lemma {:induction false} FailuresHas(name: string, vs: seq<Video>, upload: UploadOracle, n: nat, k: nat)
    requires k < |vs| && upload(n + k, Record(name, vs[k])) == Failed
    ensures Record(name, vs[k]) in Failures(name, vs, upload, n)
    decreases |vs|
  {
    var m := |vs| - 1;
    FailuresNextMember(name, vs, upload, n, Record(name, vs[k]));
    if k < m {
      assert vs[..m][k] == vs[k];
      FailuresHas(name, vs[..m], upload, n, k);
    }
  }

  /** The failures of one more video, as members. */
  lemma {:induction false} FailuresNextMember(name: string, vs: seq<Video>, upload: UploadOracle, n: nat, x: QueuedVideo)
    requires vs != []
    ensures var m := |vs| - 1;
      (x in Failures(name, vs, upload, n) <==> x in Failures(name, vs[..m], upload, n) || (x == Record(name, vs[m]) && upload(n + m, x) == Failed))
  {
    FailuresNext(name, vs, upload, n);
  }

  /** An attempt that raises nothing moves the watermark past the video. */
  lemma {:induction false} AttemptVideoGoesThrough(p: Progress, name: string, v: Video, upload: UploadOracle, watermark: Watermark)
    requires p.status == Running
    requires upload(p.tries, Record(name, v)) != NetworkError && watermark(v.publishedAt).Some?
    ensures AttemptVideo(p, name, v, upload, watermark)
         == Progress(watermark(v.publishedAt).value, Wrap(p.errs, Record(name, v), upload(p.tries, Record(name, v))), p.tries + 1, Running)
  {
  }

  /**
   * A channel whose new videos all go through: its watermark ends one
   * second after the latest of them (a channel without new videos keeps
   * its own), its failures are queued in publication order, and it makes
   * one attempt per video.
   */
  lemma {:induction false} ChannelWatermark(c: Channel, errs: seq<QueuedVideo>, tries: nat, upload: UploadOracle, watermark: Watermark)
    requires c.newVideos.Some? && CompletesVideos(c.name, SortByPublished(c.newVideos.value), upload, watermark, tries)
    ensures var r := SyncChannel(c, errs, tries, upload, watermark);
      var vs := c.newVideos.value;
      && r.status == Running
      && r.errs == errs + Failures(c.name, SortByPublished(vs), upload, tries)
      && r.tries == tries + |vs|
      && |r.channels| == 1
      && r.channels[0] == c.(lastRefresh := r.channels[0].lastRefresh)
      && (vs == [] ==> r.channels[0] == c)
      && (vs != [] ==> exists v | v in vs ::
            && watermark(v.publishedAt) == Some(r.channels[0].lastRefresh)
            && forall w | w in vs :: Before(w, v))
  {
    var vs := c.newVideos.value;
    AttemptVideosComplete(Progress(c.lastRefresh, errs, tries, Running), c.name, SortByPublished(vs), upload, watermark);
    if vs != [] {
      LatestAttemptedLast(vs);
    }
  }

  /**
   * A channel that stops the run: without 'new_videos' it is saved as it
   * was; otherwise it stops at some video j of its sorted new videos, and
   * the watermark saved for it is the one set after video j - 1, or its own
   * when j is 0.
   */
  lemma SyncChannelAborted(c: Channel, errs: seq<QueuedVideo>, tries: nat, upload: UploadOracle, watermark: Watermark)
    requires SyncChannel(c, errs, tries, upload, watermark).status.Aborted?
    ensures var r := SyncChannel(c, errs, tries, upload, watermark);
      && r.channels[0] == c.(lastRefresh := r.channels[0].lastRefresh)
      && (c.newVideos.None? ==> r.channels[0] == c && r.status == Aborted(MissingNewVideos))
      && (c.newVideos.Some? ==>
            exists j | 0 <= j < |SortByPublished(c.newVideos.value)| ::
              var vs := SortByPublished(c.newVideos.value);
              && StopsAt(c.name, vs, upload, watermark, tries, j)
              && r.tries == tries + j + 1
              && r.channels[0].lastRefresh == if j == 0 then c.lastRefresh else watermark(vs[j - 1].publishedAt).value)
  {
    if c.newVideos.Some? {
      var vs := SortByPublished(c.newVideos.value);
      var p := Progress(c.lastRefresh, errs, tries, Running);
      var q := AttemptVideos(p, c.name, vs, upload, watermark);
      AttemptVideosAborted(p, c.name, vs, upload, watermark);
      var j :| && 0 <= j < |vs|
               && StopsAt(c.name, vs, upload, watermark, tries, j)
               && q.tries == tries + j + 1
               && q.lastRefresh == if j == 0 then c.lastRefresh else watermark(vs[j - 1].publishedAt).value;
      var r := SyncChannel(c, errs, tries, upload, watermark);
      assert r == Run([c.(lastRefresh := q.lastRefresh)], q.errs, q.tries, q.status);
    } else {
      assert SyncChannel(c, errs, tries, upload, watermark) == Run([c], errs, tries, Aborted(MissingNewVideos));
    }
  }

  // ---------------------------------------------------------------------
  // Properties of the loop over the channels.

  /** Once stopped, the loop over channels leaves the rest untouched. */
  lemma {:induction false} SyncChannelsStopped(cs: seq<Channel>, errs: seq<QueuedVideo>, tries: nat, k: nat, upload: UploadOracle, watermark: Watermark)
    requires k <= |cs| && SyncChannels(cs[..k], errs, tries, upload, watermark).status.Aborted?
    ensures var s := SyncChannels(cs[..k], errs, tries, upload, watermark);
      var r := SyncChannels(cs, errs, tries, upload, watermark);
      r.errs == s.errs && r.tries == s.tries && r.status == s.status && r.channels == s.channels + cs[k..]
  {
    if k < |cs| {
      var n := |cs| - 1;
      var s := SyncChannels(cs[..k], errs, tries, upload, watermark);
      var t := SyncChannels(cs[..n], errs, tries, upload, watermark);
      assert cs[..n][..k] == cs[..k];
      SyncChannelsStopped(cs[..n], errs, tries, k, upload, watermark);
      assert t.channels == s.channels + cs[..n][k..];
      assert cs[..n][k..] + [cs[n]] == cs[k..];
      AppendAssoc(s.channels, cs[..n][k..], [cs[n]]);
    } else {
      assert cs[..k] == cs;
    }
  }

  /** Channel k stops the loop over the channels: the ones before it ran to the end, and it did not. */
  predicate ChannelStopsRun(cs: seq<Channel>, errs: seq<QueuedVideo>, tries: nat, upload: UploadOracle, watermark: Watermark, k: nat) {
    && k < |cs|
    && var s := SyncChannels(cs[..k], errs, tries, upload, watermark);
    && s.status == Running
    && SyncChannel(cs[k], s.errs, s.tries, upload, watermark).status.Aborted?
  }

  /**
   * A loop over the channels that stops, stops at some channel k. What it
   * saves is the channels before k as they ran, channel k as SyncChannel
   * leaves it (SyncChannelAborted gives its watermark), and the channels
   * after k untouched; queue, attempts and status are those of channel k.
   */
  lemma SyncChannelsAborted(cs: seq<Channel>, errs: seq<QueuedVideo>, tries: nat, upload: UploadOracle, watermark: Watermark)
    requires SyncChannels(cs, errs, tries, upload, watermark).status.Aborted?
    ensures var r := SyncChannels(cs, errs, tries, upload, watermark);
      exists k | 0 <= k < |cs| ::
        && ChannelStopsRun(cs, errs, tries, upload, watermark, k)
        && var s := SyncChannels(cs[..k], errs, tries, upload, watermark);
        && var t := SyncChannel(cs[k], s.errs, s.tries, upload, watermark);
        && r == Run(s.channels + t.channels + cs[k + 1..], t.errs, t.tries, t.status)
  {
    SomeChannelStopsRun(cs, errs, tries, upload, watermark);
    var k :| 0 <= k < |cs| && ChannelStopsRun(cs, errs, tries, upload, watermark, k);
    ChannelStopsRunSaves(cs, errs, tries, upload, watermark, k);
  }

  lemma {:induction false} SomeChannelStopsRun(cs: seq<Channel>, errs: seq<QueuedVideo>, tries: nat, upload: UploadOracle, watermark: Watermark)
    requires SyncChannels(cs, errs, tries, upload, watermark).status.Aborted?
    ensures exists k | 0 <= k < |cs| :: ChannelStopsRun(cs, errs, tries, upload, watermark, k)
  {
    var n := |cs| - 1;
    assert cs[..n + 1] == cs;
    if SyncChannels(cs[..n], errs, tries, upload, watermark).status.Aborted? {
      SomeChannelStopsRun(cs[..n], errs, tries, upload, watermark);
      var k :| 0 <= k < n && ChannelStopsRun(cs[..n], errs, tries, upload, watermark, k);
      assert cs[..n][..k] == cs[..k];
      assert ChannelStopsRun(cs, errs, tries, upload, watermark, k);
    } else {
      assert ChannelStopsRun(cs, errs, tries, upload, watermark, n);
    }
  }

  lemma {:induction false} ChannelStopsRunSaves(cs: seq<Channel>, errs: seq<QueuedVideo>, tries: nat, upload: UploadOracle, watermark: Watermark, k: nat)
    requires ChannelStopsRun(cs, errs, tries, upload, watermark, k)
    ensures var s := SyncChannels(cs[..k], errs, tries, upload, watermark);
      var t := SyncChannel(cs[k], s.errs, s.tries, upload, watermark);
      SyncChannels(cs, errs, tries, upload, watermark) == Run(s.channels + t.channels + cs[k + 1..], t.errs, t.tries, t.status)
  {
    var s := SyncChannels(cs[..k], errs, tries, upload, watermark);
    var t := SyncChannel(cs[k], s.errs, s.tries, upload, watermark);
    assert cs[..k + 1][..k] == cs[..k];
    assert SyncChannels(cs[..k + 1], errs, tries, upload, watermark) == Run(s.channels + t.channels, t.errs, t.tries, t.status);
    SyncChannelsStopped(cs, errs, tries, k + 1, upload, watermark);
  }

  /** One channel runs to the end exactly when it has 'new_videos' and they all go through. */
  lemma {:induction false} SyncChannelComplete(c: Channel, errs: seq<QueuedVideo>, tries: nat, upload: UploadOracle, watermark: Watermark)
    ensures var r := SyncChannel(c, errs, tries, upload, watermark);
      && (r.status == Running <==> c.newVideos.Some? && CompletesVideos(c.name, SortByPublished(c.newVideos.value), upload, watermark, tries))
      && (r.status == Running ==>
            && r.errs == errs + Failures(c.name, SortByPublished(c.newVideos.value), upload, tries)
            && r.tries == tries + |c.newVideos.value|)
  {
    if c.newVideos.Some? {
      AttemptVideosComplete(Progress(c.lastRefresh, errs, tries, Running), c.name, SortByPublished(c.newVideos.value), upload, watermark);
    }
  }

  /** A loop over the channels that runs to the end has queued every channel's failures and made one attempt per new video. */
  lemma {:induction false} ChannelsRunning(cs: seq<Channel>, errs: seq<QueuedVideo>, tries: nat, upload: UploadOracle, watermark: Watermark)
    requires SyncChannels(cs, errs, tries, upload, watermark).status == Running
    ensures var r := SyncChannels(cs, errs, tries, upload, watermark);
      r.errs == errs + ChannelFailures(cs, upload, tries) && r.tries == tries + Attempts(cs)
  {
    if cs != [] {
      var n := |cs| - 1;
      var c := cs[n];
      var s := SyncChannels(cs[..n], errs, tries, upload, watermark);
      assert s.status == Running;
      ChannelsRunning(cs[..n], errs, tries, upload, watermark);
      var t := SyncChannel(c, s.errs, s.tries, upload, watermark);
      SyncChannelsLast(cs, errs, tries, upload, watermark);
      SyncChannelRunning(c, s.errs, s.tries, upload, watermark);
      ChannelFailuresNext(cs, upload, tries, s.tries);
      QueueChain(t.errs, s.errs, OwnFailures(c, upload, s.tries), errs, ChannelFailures(cs[..n], upload, tries), ChannelFailures(cs, upload, tries));
      AttemptsNext(cs);
    }
  }

  /** SyncChannelComplete without the condition. */
  lemma {:induction false} SyncChannelRunning(c: Channel, errs: seq<QueuedVideo>, tries: nat, upload: UploadOracle, watermark: Watermark)
    requires SyncChannel(c, errs, tries, upload, watermark).status == Running
    ensures var r := SyncChannel(c, errs, tries, upload, watermark);
      r.errs == errs + OwnFailures(c, upload, tries) && r.tries == tries + OwnAttempts(c)
  {
    AttemptVideosComplete(Progress(c.lastRefresh, errs, tries, Running), c.name, SortByPublished(c.newVideos.value), upload, watermark);
  }

  /**
   * The loop over the channels runs to the end exactly when no channel
   * raises. It then has queued every channel's failures, channel after
   * channel, and made one attempt per new video.
   */
  lemma {:induction false} ChannelsComplete(cs: seq<Channel>, errs: seq<QueuedVideo>, tries: nat, upload: UploadOracle, watermark: Watermark)
    ensures var r := SyncChannels(cs, errs, tries, upload, watermark);
      && (r.status == Running <==> CompletesChannels(cs, upload, watermark, tries))
      && (r.status == Running ==> r.errs == errs + ChannelFailures(cs, upload, tries) && r.tries == tries + Attempts(cs))
  {
    ChannelsStatus(cs, errs, tries, upload, watermark);
    if SyncChannels(cs, errs, tries, upload, watermark).status == Running {
      ChannelsRunning(cs, errs, tries, upload, watermark);
    }
  }

  /** ChannelsComplete's first half. */
  lemma {:induction false} ChannelsStatus(cs: seq<Channel>, errs: seq<QueuedVideo>, tries: nat, upload: UploadOracle, watermark: Watermark)
    ensures SyncChannels(cs, errs, tries, upload, watermark).status == Running <==> CompletesChannels(cs, upload, watermark, tries)
  {
    if cs != [] {
      var n := |cs| - 1;
      var c := cs[n];
      var s := SyncChannels(cs[..n], errs, tries, upload, watermark);
      var r := SyncChannels(cs, errs, tries, upload, watermark);
      ChannelsStatus(cs[..n], errs, tries, upload, watermark);
      CompletesChannelsNext(cs, upload, watermark, tries);
      if s.status.Aborted? {
        assert r.status == s.status;
      } else {
        ChannelsStatusLast(cs, errs, tries, upload, watermark);
      }
    }
  }

  /** ChannelsStatus for the last channel, once the ones before it ran to the end. */
  lemma {:induction false} ChannelsStatusLast(cs: seq<Channel>, errs: seq<QueuedVideo>, tries: nat, upload: UploadOracle, watermark: Watermark)
    requires cs != [] && SyncChannels(cs[..|cs| - 1], errs, tries, upload, watermark).status == Running
    ensures var init, c := cs[..|cs| - 1], cs[|cs| - 1];
      SyncChannels(cs, errs, tries, upload, watermark).status == Running <==>
        c.newVideos.Some? && CompletesVideos(c.name, SortByPublished(c.newVideos.value), upload, watermark, tries + Attempts(init))
  {
    var n := |cs| - 1;
    var s := SyncChannels(cs[..n], errs, tries, upload, watermark);
    ChannelsRunning(cs[..n], errs, tries, upload, watermark);
    SyncChannelsLast(cs, errs, tries, upload, watermark);
    SyncChannelComplete(cs[n], s.errs, s.tries, upload, watermark);
  }

  lemma {:induction false} CompletesChannelsNext(cs: seq<Channel>, upload: UploadOracle, watermark: Watermark, n: nat)
    requires cs != []
    ensures var init, c := cs[..|cs| - 1], cs[|cs| - 1];
      CompletesChannels(cs, upload, watermark, n) <==>
        && CompletesChannels(init, upload, watermark, n)
        && c.newVideos.Some?
        && CompletesVideos(c.name, SortByPublished(c.newVideos.value), upload, watermark, n + Attempts(init))
  {
  }

  /** The failures of one more channel. */
  lemma {:induction false} ChannelFailuresNext(cs: seq<Channel>, upload: UploadOracle, n: nat, k: nat)
    requires cs != [] && k == n + Attempts(cs[..|cs| - 1])
    ensures ChannelFailures(cs, upload, n) == ChannelFailures(cs[..|cs| - 1], upload, n) + OwnFailures(cs[|cs| - 1], upload, k)
  {
    OwnFailuresAt(cs[|cs| - 1], upload, k, n + Attempts(cs[..|cs| - 1]));
  }

  /** The attempts of one more channel. */
  lemma {:induction false} AttemptsNext(cs: seq<Channel>)
    requires cs != []
    ensures Attempts(cs) == Attempts(cs[..|cs| - 1]) + OwnAttempts(cs[|cs| - 1])
  {
  }

  /** The loop over channels, one channel further, when it has not stopped yet. */
  lemma {:induction false} SyncChannelsLast(cs: seq<Channel>, errs: seq<QueuedVideo>, tries: nat, upload: UploadOracle, watermark: Watermark)
    requires cs != [] && SyncChannels(cs[..|cs| - 1], errs, tries, upload, watermark).status == Running
    ensures var s := SyncChannels(cs[..|cs| - 1], errs, tries, upload, watermark);
      var t := SyncChannel(cs[|cs| - 1], s.errs, s.tries, upload, watermark);
      var r := SyncChannels(cs, errs, tries, upload, watermark);
      r.errs == t.errs && r.tries == t.tries && r.status == t.status
  {
  }

  /** The channels of the loop over channels, one channel further, when it has not stopped yet. */
  lemma {:induction false} SyncChannelsLastChannels(cs: seq<Channel>, errs: seq<QueuedVideo>, tries: nat, upload: UploadOracle, watermark: Watermark)
    requires cs != [] && SyncChannels(cs[..|cs| - 1], errs, tries, upload, watermark).status == Running
    ensures var s := SyncChannels(cs[..|cs| - 1], errs, tries, upload, watermark);
      var t := SyncChannel(cs[|cs| - 1], s.errs, s.tries, upload, watermark);
      SyncChannels(cs, errs, tries, upload, watermark).channels == s.channels + t.channels
  {
  }

  /**
   * Stopped or not, the loop over channels keeps what was queued before and
   * adds the first failures of a run without exceptions: what `main` saves
   * after an exception is never more, and never other, than that.
   */
  lemma {:induction false} SyncChannelsQueue(cs: seq<Channel>, errs: seq<QueuedVideo>, tries: nat, upload: UploadOracle, watermark: Watermark)
    ensures var r := SyncChannels(cs, errs, tries, upload, watermark);
      var all := errs + ChannelFailures(cs, upload, tries);
      |errs| <= |r.errs| <= |all| && r.errs == all[..|r.errs|]
  {
    if cs == [] {
      assert (errs + [])[..|errs|] == errs;
    } else {
      var n := |cs| - 1;
      var c := cs[n];
      var s := SyncChannels(cs[..n], errs, tries, upload, watermark);
      var r := SyncChannels(cs, errs, tries, upload, watermark);
      var cf0 := ChannelFailures(cs[..n], upload, tries);
      SyncChannelsQueue(cs[..n], errs, tries, upload, watermark);
      if s.status.Aborted? {
        assert r.errs == s.errs;
        var k := tries + Attempts(cs[..n]);
        ChannelFailuresNext(cs, upload, tries, k);
        PrefixKeep(r.errs, s.errs, errs, cf0, OwnFailures(c, upload, k), ChannelFailures(cs, upload, tries));
      } else {
        ChannelsRunning(cs[..n], errs, tries, upload, watermark);
        var t := SyncChannel(c, s.errs, s.tries, upload, watermark);
        SyncChannelsLast(cs, errs, tries, upload, watermark);
        SyncChannelQueue(c, s.errs, s.tries, upload, watermark);
        ChannelFailuresNext(cs, upload, tries, s.tries);
        PrefixThrough(r.errs, t.errs, s.errs, OwnFailures(c, upload, s.tries), errs, cf0, ChannelFailures(cs, upload, tries));
      }
    }
  }

  /** A channel's failures depend on the number of its first attempt and nothing else. */
  lemma {:induction false} OwnFailuresAt(c: Channel, upload: UploadOracle, k: nat, n: nat)
    requires k == n
    ensures OwnFailures(c, upload, k) == OwnFailures(c, upload, n)
  {
  }

  /** Joins the equations that say what a run that goes through has queued. */
  lemma QueueChain<T>(r: seq<T>, s: seq<T>, own: seq<T>, errs: seq<T>, before: seq<T>, all: seq<T>)
    requires r == s + own && s == errs + before && all == before + own
    ensures r == errs + all
  {
  }

  /** SyncChannelsQueue for one channel. */
  lemma {:induction false} SyncChannelQueue(c: Channel, errs: seq<QueuedVideo>, tries: nat, upload: UploadOracle, watermark: Watermark)
    ensures var t := SyncChannel(c, errs, tries, upload, watermark);
      var all := errs + OwnFailures(c, upload, tries);
      |errs| <= |t.errs| <= |all| && t.errs == all[..|t.errs|]
  {
    var t := SyncChannel(c, errs, tries, upload, watermark);
    if c.newVideos.None? {
      assert t.errs == errs;
      assert (errs + [])[..|errs|] == errs;
    } else {
      var p0 := Progress(c.lastRefresh, errs, tries, Running);
      var vs := SortByPublished(c.newVideos.value);
      var f := Failures(c.name, vs, upload, tries);
      assert OwnFailures(c, upload, tries) == f;
      var q := AttemptVideos(p0, c.name, vs, upload, watermark);
      assert t.errs == q.errs;
      AttemptVideosQueue(p0, c.name, vs, upload, watermark);
      var j := q.tries - tries;
      var fj := Failures(c.name, vs[..j], upload, tries);
      assert q.errs == errs + fj;
      FailuresTake(c.name, vs, j, upload, tries);
      TakeAppendRight(errs, f, |fj|);
    }
  }

  /**
   * In a run in which no channel raises, every channel ends as it would if
   * it were synced alone from its own first attempt: ChannelWatermark says
   * where its watermark goes.
   */
  lemma {:induction false} ChannelsSyncedAlone(cs: seq<Channel>, errs: seq<QueuedVideo>, tries: nat, upload: UploadOracle, watermark: Watermark)
    requires CompletesChannels(cs, upload, watermark, tries)
    ensures SyncChannels(cs, errs, tries, upload, watermark).channels == AloneChannels(cs, upload, watermark, tries)
  {
    if cs != [] {
      var n := |cs| - 1;
      var c := cs[n];
      var s := SyncChannels(cs[..n], errs, tries, upload, watermark);
      CompletesChannelsNext(cs, upload, watermark, tries);
      ChannelsSyncedAlone(cs[..n], errs, tries, upload, watermark);
      ChannelsComplete(cs[..n], errs, tries, upload, watermark);
      var t := SyncChannel(c, s.errs, s.tries, upload, watermark);
      SyncChannelsLastChannels(cs, errs, tries, upload, watermark);
      SyncChannelErrsIndependent(c, s.errs, s.tries, upload, watermark);
      AloneChannelsNext(cs, upload, watermark, tries, s.tries);
      JoinThrough(SyncChannels(cs, errs, tries, upload, watermark).channels, s.channels, t.channels,
        AloneChannels(cs[..n], upload, watermark, tries), SyncChannel(c, [], s.tries, upload, watermark).channels,
        AloneChannels(cs, upload, watermark, tries));
    }
  }

  /** The channels synced alone, one channel further. */
  lemma {:induction false} AloneChannelsNext(cs: seq<Channel>, upload: UploadOracle, watermark: Watermark, n: nat, k: nat)
    requires cs != [] && k == n + Attempts(cs[..|cs| - 1])
    ensures AloneChannels(cs, upload, watermark, n)
         == AloneChannels(cs[..|cs| - 1], upload, watermark, n) + SyncChannel(cs[|cs| - 1], [], k, upload, watermark).channels
  {
  }

  /** The watermark a channel ends with does not depend on what was queued before. */
  lemma {:induction false} SyncChannelErrsIndependent(c: Channel, errs: seq<QueuedVideo>, tries: nat, upload: UploadOracle, watermark: Watermark)
    requires c.newVideos.Some?
    ensures SyncChannel(c, errs, tries, upload, watermark).channels == SyncChannel(c, [], tries, upload, watermark).channels
  {
    var vs := SortByPublished(c.newVideos.value);
    AttemptVideosErrsIndependent(c.lastRefresh, errs, tries, c.name, vs, upload, watermark);
  }

  lemma {:induction false} AttemptVideosErrsIndependent(lr: string, errs: seq<QueuedVideo>, tries: nat, name: string, vs: seq<Video>, upload: UploadOracle, watermark: Watermark)
    ensures var p := AttemptVideos(Progress(lr, errs, tries, Running), name, vs, upload, watermark);
      var q := AttemptVideos(Progress(lr, [], tries, Running), name, vs, upload, watermark);
      p.lastRefresh == q.lastRefresh && p.tries == q.tries && p.status == q.status
  {
    if vs != [] {
      AttemptVideosErrsIndependent(lr, errs, tries, name, vs[..|vs| - 1], upload, watermark);
    }
  }

  /** Channels with no new videos come out of the loop unchanged, and no attempt is made. */
  lemma {:induction false} QuietChannels(cs: seq<Channel>, errs: seq<QueuedVideo>, tries: nat, upload: UploadOracle, watermark: Watermark)
    requires forall i | 0 <= i < |cs| :: cs[i].newVideos == Some([])
    ensures SyncChannels(cs, errs, tries, upload, watermark) == Run(cs, errs, tries, Running)
  {
    if cs != [] {
      var n := |cs| - 1;
      QuietChannels(cs[..n], errs, tries, upload, watermark);
      assert SortByPublished([]) == [];
      assert cs[..n] + [cs[n]] == cs;
    }
  }

  // ---------------------------------------------------------------------
  // Properties of the retry loop.

  lemma {:induction false} RetryExtrasStopped(extras: seq<QueuedVideo>, errs: seq<QueuedVideo>, tries: nat, k: nat, upload: UploadOracle)
    requires k <= |extras| && RetryExtras(extras[..k], errs, tries, upload).status.Aborted?
    ensures RetryExtras(extras, errs, tries, upload) == RetryExtras(extras[..k], errs, tries, upload)
  {
    if k < |extras| {
      var n := |extras| - 1;
      assert extras[..n][..k] == extras[..k];
      RetryExtrasStopped(extras[..n], errs, tries, k, upload);
    } else {
      assert extras[..k] == extras;
    }
  }

  /**
   * The retry loop runs to the end exactly when no retry meets a network
   * error. It then has queued exactly the extras whose retry failed, in
   * queue order, with one attempt each.
   */
  lemma {:induction false} RetryExtrasComplete(extras: seq<QueuedVideo>, errs: seq<QueuedVideo>, tries: nat, upload: UploadOracle)
    ensures var p := RetryExtras(extras, errs, tries, upload);
      && (p.status == Running <==> CompletesExtras(extras, upload, tries))
      && (p.status == Running ==> p.errs == errs + FailedExtras(extras, upload, tries) && p.tries == tries + |extras|)
  {
    if extras != [] {
      var n := |extras| - 1;
      RetryExtrasComplete(extras[..n], errs, tries, upload);
    }
  }

  /**
   * A network error on the retry of queued video k, attempt tries + k,
   * stops the retry loop: either there, or at an earlier network error.
   */
  lemma {:induction false} RetryExtrasNetwork(extras: seq<QueuedVideo>, errs: seq<QueuedVideo>, tries: nat, k: nat, upload: UploadOracle)
    requires k < |extras| && upload(tries + k, extras[k]) == NetworkError
    ensures RetryExtras(extras, errs, tries, upload).status.Aborted?
  {
    var n := |extras| - 1;
    if k < n {
      RetryExtrasNetwork(extras[..n], errs, tries, k, upload);
    } else {
      RetryExtrasComplete(extras[..n], errs, tries, upload);
    }
  }

  /** A queued video is queued again exactly when one of its retries fails. */
  lemma {:induction false} FailedExtrasMembers(extras: seq<QueuedVideo>, upload: UploadOracle, n: nat, x: QueuedVideo)
    ensures x in FailedExtras(extras, upload, n)
        <==> exists k | 0 <= k < |extras| :: extras[k] == x && upload(n + k, x) == Failed
  {
    if x in FailedExtras(extras, upload, n) {
      FailedExtrasFrom(extras, upload, n, x);
    }
    if k :| 0 <= k < |extras| && extras[k] == x && upload(n + k, x) == Failed {
      FailedExtrasHas(extras, upload, n, k);
    }
  }

  /** Whatever the new queue holds is a queued video whose retry failed. */
  lemma {:induction false} FailedExtrasFrom(extras: seq<QueuedVideo>, upload: UploadOracle, n: nat, x: QueuedVideo)
    requires x in FailedExtras(extras, upload, n)
    ensures exists k | 0 <= k < |extras| :: extras[k] == x && upload(n + k, x) == Failed
  {
    var m := |extras| - 1;
    FailedExtrasNext(extras, upload, n, x);
    if x in FailedExtras(extras[..m], upload, n) {
      FailedExtrasFrom(extras[..m], upload, n, x);
      var k :| 0 <= k < m && extras[..m][k] == x && upload(n + k, x) == Failed;
      assert extras[k] == x;
    } else {
      assert extras[m] == x && upload(n + m, x) == Failed;
    }
  }

  /** A queued video whose retry fails is in the new queue. */
  lemma {:induction false} FailedExtrasHas(extras: seq<QueuedVideo>, upload: UploadOracle, n: nat, k: nat)
    requires k < |extras| && upload(n + k, extras[k]) == Failed
    ensures extras[k] in FailedExtras(extras, upload, n)
    decreases |extras|
  {
    var m := |extras| - 1;
    FailedExtrasNext(extras, upload, n, extras[k]);
    if k < m {
      assert extras[..m][k] == extras[k];
      FailedExtrasHas(extras[..m], upload, n, k);
    }
  }

  /** The failed retries of one more queued video. */
  lemma {:induction false} FailedExtrasNext(extras: seq<QueuedVideo>, upload: UploadOracle, n: nat, x: QueuedVideo)
    requires extras != []
    ensures var m := |extras| - 1;
      (x in FailedExtras(extras, upload, n) <==> x in FailedExtras(extras[..m], upload, n) || (extras[m] == x && upload(n + m, x) == Failed))
  {
    var m := |extras| - 1;
    assert FailedExtras(extras, upload, n) == FailedExtras(extras[..m], upload, n) + Queued(extras[m], upload(n + m, extras[m]));
  }

  /**
   * The same record queued twice is retried twice, once per entry: when
   * the first retry fails and the second goes through, it is queued once.
   */
  lemma {:induction false} DuplicateRetriedTwice(e: QueuedVideo, upload: UploadOracle, n: nat)
    requires upload(n, e) == Failed && upload(n + 1, e) == Uploaded
    ensures FailedExtras([e, e], upload, n) == [e]
  {
    assert [e, e][..1] == [e];
    assert [e][..0] == [];
  }

  /**
   * A network error while retrying the first extra ends the run with
   * nothing of the old queue saved: queued videos not yet retried drop
   * out of the persisted queue.
   */
  lemma {:induction false} ExtrasLostOnNetworkError(extras: seq<QueuedVideo>, errs: seq<QueuedVideo>, tries: nat, upload: UploadOracle)
    requires extras != [] && upload(tries, extras[0]) == NetworkError
    ensures RetryExtras(extras, errs, tries, upload) == Retry(errs, tries + 1, Aborted(NetworkDown))
  {
    assert extras[..1][..0] == [];
    assert RetryExtras(extras[..1][..0], errs, tries, upload) == Retry(errs, tries, Running);
    RetryExtrasStopped(extras, errs, tries, 1, upload);
  }

  // ---------------------------------------------------------------------
  // `any_videos_to_upload`.

  /**
   * `any_videos_to_upload` is false exactly when every channel has an
   * empty 'new_videos' and no video is queued.
   */
  lemma {:induction false} NothingToUpload(cs: seq<Channel>, extras: seq<QueuedVideo>)
    ensures AnyVideosToUpload(cs, extras) == Some(false)
        <==> extras == [] && forall i | 0 <= i < |cs| :: cs[i].newVideos == Some([])
  {
    NoNewVideos(cs);
  }

  lemma {:induction false} NoNewVideos(cs: seq<Channel>)
    ensures AnyNewVideos(cs) == Some(false) <==> forall i | 0 <= i < |cs| :: cs[i].newVideos == Some([])
  {
    if cs != [] {
      NoNewVideos(cs[1..]);
      assert forall i | 1 <= i < |cs| :: cs[i] == cs[1..][i - 1];
    }
  }

  /**
   * `any_videos_to_upload` raises KeyError exactly when it reaches a
   * channel without 'new_videos': every channel before it has none new.
   */
  lemma {:induction false} AnyNewVideosRaises(cs: seq<Channel>)
    ensures AnyNewVideos(cs) == None <==>
      exists k | 0 <= k < |cs| :: cs[k].newVideos == None && forall i | 0 <= i < k :: cs[i].newVideos == Some([])
  {
    if cs != [] {
      AnyNewVideosRaises(cs[1..]);
      if AnyNewVideos(cs) == None && cs[0].newVideos != None {
        var k :| 0 <= k < |cs| - 1 && cs[1..][k].newVideos == None
          && forall i | 0 <= i < k :: cs[1..][i].newVideos == Some([]);
        assert cs[k + 1].newVideos == None;
        assert forall i | 0 <= i < k + 1 :: cs[i].newVideos == Some([]) by {
          forall i | 0 <= i < k + 1 ensures cs[i].newVideos == Some([]) {
            if i > 0 { assert cs[i] == cs[1..][i - 1]; }
          }
        }
      }
      if cs[0].newVideos.Some? && cs[0].newVideos.value == [] {
        if k :| 0 <= k < |cs| && cs[k].newVideos == None && forall i | 0 <= i < k :: cs[i].newVideos == Some([]) {
          assert k > 0;
          assert cs[1..][k - 1].newVideos == None;
          assert forall i | 0 <= i < k - 1 :: cs[1..][i].newVideos == Some([]) by {
            forall i | 0 <= i < k - 1 ensures cs[1..][i].newVideos == Some([]) {
              assert cs[1..][i] == cs[i + 1];
            }
          }
        }
      }
    }
  }

  // ---------------------------------------------------------------------
  // The whole run.

  /**
   * A run with nothing to upload changes nothing: every watermark stays,
   * no attempt is made, and the queue `save_config` writes is the one the
   * run started with.
   */
  lemma {:induction false} QuietRun(cs: seq<Channel>, extras: seq<QueuedVideo>, errs: seq<QueuedVideo>, tries: nat, upload: UploadOracle, watermark: Watermark)
    requires AnyVideosToUpload(cs, extras) == Some(false)
    ensures UploadRun(cs, extras, errs, tries, upload, watermark) == Run(cs, errs, tries, Running)
  {
    NothingToUpload(cs, extras);
    QuietChannels(cs, errs, tries, upload, watermark);
  }

  /**
   * The run ends without an exception exactly when no channel and no
   * retry raises. The persisted queue then holds exactly the videos that
   * failed in this run: new ones channel by channel first, then the old
   * queue's entries whose retry failed.
   */
  lemma {:induction false} RunQueue(cs: seq<Channel>, extras: seq<QueuedVideo>, errs: seq<QueuedVideo>, tries: nat, upload: UploadOracle, watermark: Watermark)
    ensures var r := UploadRun(cs, extras, errs, tries, upload, watermark);
      var n := tries + Attempts(cs);
      && (r.status == Running <==> CompletesChannels(cs, upload, watermark, tries) && CompletesExtras(extras, upload, n))
      && (r.status == Running ==>
            && r.errs == errs + ChannelFailures(cs, upload, tries) + FailedExtras(extras, upload, n)
            && r.tries == n + |extras|)
  {
    var s := SyncChannels(cs, errs, tries, upload, watermark);
    ChannelsComplete(cs, errs, tries, upload, watermark);
    if s.status == Running {
      var p := RetryExtras(extras, s.errs, s.tries, upload);
      RetryExtrasComplete(extras, s.errs, s.tries, upload);
      assert UploadRun(cs, extras, errs, tries, upload, watermark) == Run(s.channels, p.errs, p.tries, p.status);
      if p.status == Running {
        assert s.errs == errs + ChannelFailures(cs, upload, tries) && s.tries == tries + Attempts(cs);
        assert p.errs == s.errs + FailedExtras(extras, upload, s.tries);
      }
    }
  }

  /**
   * In a run in which nothing raises, a queued video that was not queued
   * before and did not fail again as a new video stays queued exactly when
   * one of its retries fails: FailedExtrasMembers says which retries those
   * are.
   */
  lemma {:induction false} RetriedVideoLeaves(cs: seq<Channel>, extras: seq<QueuedVideo>, errs: seq<QueuedVideo>, tries: nat, upload: UploadOracle, watermark: Watermark, x: QueuedVideo)
    requires CompletesChannels(cs, upload, watermark, tries) && CompletesExtras(extras, upload, tries + Attempts(cs))
    requires x !in errs && x !in ChannelFailures(cs, upload, tries)
    ensures x in UploadRun(cs, extras, errs, tries, upload, watermark).errs
        <==> x in FailedExtras(extras, upload, tries + Attempts(cs))
  {
    RunQueue(cs, extras, errs, tries, upload, watermark);
    InLastPart(x, errs, ChannelFailures(cs, upload, tries), FailedExtras(extras, upload, tries + Attempts(cs)));
  }

  // ---------------------------------------------------------------------
  // Sequences.

  lemma InLastPart<T>(x: T, a: seq<T>, b: seq<T>, c: seq<T>)
    requires x !in a && x !in b
    ensures x in a + b + c <==> x in c
  {
  }

  lemma {:induction false} AppendAssoc<T>(a: seq<T>, b: seq<T>, c: seq<T>)
    ensures a + (b + c) == a + b + c
  {
  }

  /** Joins the equations that say how the channels of a run that goes through end. */
  lemma JoinThrough<T>(r: seq<T>, s: seq<T>, t: seq<T>, before: seq<T>, own: seq<T>, all: seq<T>)
    requires r == s + t && s == before && t == own && all == before + own
    ensures r == all
  {
  }

  lemma PrefixKeep<T>(r: seq<T>, s: seq<T>, errs: seq<T>, before: seq<T>, own: seq<T>, all: seq<T>)
    requires r == s && |errs| <= |s| <= |errs + before| && s == (errs + before)[..|s|]
    requires all == before + own
    ensures |errs| <= |r| <= |errs + all| && r == (errs + all)[..|r|]
  {
    assert (errs + all)[..|s|] == (errs + before)[..|s|];
  }

  /** Joins the equations of SyncChannelsQueue when the channel is attempted. */
  lemma PrefixThrough<T>(r: seq<T>, t: seq<T>, s: seq<T>, own: seq<T>, errs: seq<T>, before: seq<T>, all: seq<T>)
    requires r == t && |s| <= |t| <= |s + own| && t == (s + own)[..|t|]
    requires s == errs + before && all == before + own
    ensures |errs| <= |r| <= |errs + all| && r == (errs + all)[..|r|]
  {
  }

  lemma {:induction false} TakeAppend<T>(a: seq<T>, b: seq<T>, k: nat)
    requires k <= |a|
    ensures (a + b)[..k] == a[..k]
  {
  }

  lemma {:induction false} TakeAppendRight<T>(a: seq<T>, b: seq<T>, k: nat)
    requires k <= |b|
    ensures a + b[..k] == (a + b)[..|a| + k]
  {
  }
}
