/**
 * What `write_extra_videos` and `write_new_channels` of script.py add to
 * the config, as values. The YouTube API lookups are oracles: `lookup`
 * from a video id to the video's title and its channel's title, `resolve`
 * from a channel reference to the channel's id and title.
 *
 * The URL searches are parameters as well: the uploader passes
 * Links.ExtractVideoId as `idOf` and Links.ExtractChannel as `channelOf`,
 * so that these proofs do not unfold the pattern matching.
 */
module Intake {
  import opened Options
  import opened Links
  import opened Sync

  /** What the API reports for a video id (`videos().list`, then `channels().list`). */
  datatype VideoInfo = VideoInfo(title: string, channelName: string)

  /** What the API reports for a channel (`channels().list`). */
  datatype ChannelInfo = ChannelInfo(id: string, title: string)

  /**
   * The list comprehension of `write_extra_videos`: the id of every URL,
   * or None where some URL has none (`re.search` gives None and `.group`
   * raises AttributeError).
   */
  function VideoIds(urls: seq<string>, idOf: string -> Option<string>): Option<seq<string>> {
    if urls == [] then Some([])
    else match VideoIds(urls[..|urls| - 1], idOf)
      case None => None
      case Some(ids) =>
        match idOf(urls[|urls| - 1])
        case None => None
        case Some(id) => Some(ids + [id])
  }

  /**
   * All or nothing: the ids come out exactly when every URL has one, one
   * per URL in order.
   */
  lemma {:induction false} VideoIdsAllOrNothing(urls: seq<string>, idOf: string -> Option<string>)
    ensures VideoIds(urls, idOf).Some? <==> forall i | 0 <= i < |urls| :: idOf(urls[i]).Some?
    ensures VideoIds(urls, idOf).Some? ==>
      && |VideoIds(urls, idOf).value| == |urls|
      && forall i | 0 <= i < |urls| :: VideoIds(urls, idOf).value[i] == idOf(urls[i]).value
  {
    if urls != [] {
      var n := |urls| - 1;
      VideoIdsAllOrNothing(urls[..n], idOf);
      assert forall i | 0 <= i < n :: urls[..n][i] == urls[i];
    }
  }

  /** A URL without an id fails the whole list. */
  lemma {:induction false} VideoIdsStopped(urls: seq<string>, k: nat, idOf: string -> Option<string>)
    requires k <= |urls| && VideoIds(urls[..k], idOf) == None
    ensures VideoIds(urls, idOf) == None
  {
    if k < |urls| {
      var n := |urls| - 1;
      assert urls[..n][..k] == urls[..k];
      VideoIdsStopped(urls[..n], k, idOf);
    } else {
      assert urls[..k] == urls;
    }
  }

  /** The record `write_extra_videos` builds for a video id. */
  function ExtraRecord(id: string, lookup: string -> VideoInfo): QueuedVideo {
    QueuedVideo(lookup(id).channelName, id, lookup(id).title)
  }

  /** The records of the ids, in order. */
  function NewExtras(ids: seq<string>, lookup: string -> VideoInfo): (r: seq<QueuedVideo>)
    ensures |r| == |ids|
  {
    if ids == [] then []
    else NewExtras(ids[..|ids| - 1], lookup) + [ExtraRecord(ids[|ids| - 1], lookup)]
  }

  /** One record per id, with the id it was built for, in the order of the ids. */
  lemma {:induction false} NewExtrasAt(ids: seq<string>, lookup: string -> VideoInfo, i: nat)
    requires i < |ids|
    ensures NewExtras(ids, lookup)[i].id == ids[i]
    ensures NewExtras(ids, lookup)[i] == ExtraRecord(ids[i], lookup)
  {
    var n := |ids| - 1;
    if i < n {
      NewExtrasAt(ids[..n], lookup, i);
    }
  }

  /** The keys a later run reads from a channel entry: `_get_new_videos` and `add_new_videos`. */
  const ReadKeys: set<string> := {"id", "name", "last_refresh"}

  /** The dict `write_new_channels` appends, with the keys it is written under. */
  function NewChannelEntry(info: ChannelInfo, now: string): map<string, string> {
    map["channel_title" := info.title, "channel_id" := info.id, "current_time" := now]
  }

  /**
   * The entry as written carries none of the keys a later run reads, so
   * `_get_new_videos` raises KeyError on `channel['id']` for it.
   */
  lemma NewChannelEntryUnreadable(info: ChannelInfo, now: string)
    ensures forall k | k in ReadKeys :: k !in NewChannelEntry(info, now)
  {
  }

  /**
   * The channel `write_new_channels` evidently means to append for a matched
   * reference: the resolved id and title where the sync reads them, no
   * 'new_videos' yet, and the current time as its first watermark.
   */
  function NewChannel(info: ChannelInfo, now: string): (c: Channel)
    ensures c.id == info.id && c.name == info.title
    ensures c.newVideos == None && c.lastRefresh == now
  {
    Channel(info.id, info.title, now, None)
  }

  /** The channel a URL adds: none when neither channel pattern matches. */
  function ChannelFromUrl(url: string, channelOf: string -> Option<ChannelRef>, resolve: ChannelRef -> ChannelInfo, now: string): (r: seq<Channel>)
    ensures |r| <= 1
    ensures r == [] <==> channelOf(url).None?
  {
    match channelOf(url)
    case None => []
    case Some(ref) => [NewChannel(resolve(ref), now)]
  }

  /**
   * The loop of `write_new_channels`: every URL in order, unmatched ones
   * skipped. `clock(k)` is the time `datetime.now()` reads while URL k is
   * handled.
   */
  function NewChannels(urls: seq<string>, channelOf: string -> Option<ChannelRef>, resolve: ChannelRef -> ChannelInfo, clock: nat -> string): seq<Channel> {
    if |urls| == 0 then []
    else
      var n := |urls| - 1;
      NewChannels(urls[..n], channelOf, resolve, clock) + ChannelFromUrl(urls[n], channelOf, resolve, clock(n))
  }

  /**
   * The URLs are independent: a skipped URL does not stop those after it,
   * and the URLs after the first |a| see the clock from there on.
   */
  lemma {:induction false} NewChannelsAppend(a: seq<string>, b: seq<string>, channelOf: string -> Option<ChannelRef>, resolve: ChannelRef -> ChannelInfo, clock: nat -> string, later: nat -> string)
    requires forall k: nat :: later(k) == clock(|a| + k)
    ensures NewChannels(a + b, channelOf, resolve, clock) == NewChannels(a, channelOf, resolve, clock) + NewChannels(b, channelOf, resolve, later)
    decreases |b|
  {
    if b != [] {
      var n := |b| - 1;
      assert (a + b)[..|a + b| - 1] == a + b[..n];
      assert (a + b)[|a + b| - 1] == b[n];
      assert later(n) == clock(|a| + n);
      NewChannelsAppend(a, b[..n], channelOf, resolve, clock, later);
    } else {
      assert a + b == a;
    }
  }

  /** At most one channel per URL, and exactly one each when every URL matches. */
  lemma {:induction false} NewChannelsCount(urls: seq<string>, channelOf: string -> Option<ChannelRef>, resolve: ChannelRef -> ChannelInfo, clock: nat -> string)
    ensures |NewChannels(urls, channelOf, resolve, clock)| <= |urls|
    ensures |NewChannels(urls, channelOf, resolve, clock)| == |urls| <==> forall i | 0 <= i < |urls| :: channelOf(urls[i]).Some?
  {
    if urls != [] {
      var n := |urls| - 1;
      NewChannelsCount(urls[..n], channelOf, resolve, clock);
      assert forall i | 0 <= i < n :: urls[..n][i] == urls[i];
    }
  }

  /**
   * Every channel added comes from a matched URL k and carries what the API
   * resolved for it, stamped with the time read for that URL.
   */
  lemma {:induction false} NewChannelsFromUrls(urls: seq<string>, channelOf: string -> Option<ChannelRef>, resolve: ChannelRef -> ChannelInfo, clock: nat -> string, c: Channel)
    requires c in NewChannels(urls, channelOf, resolve, clock)
    ensures exists k | 0 <= k < |urls| :: channelOf(urls[k]).Some? && c == NewChannel(resolve(channelOf(urls[k]).value), clock(k))
  {
    var n := |urls| - 1;
    if c in NewChannels(urls[..n], channelOf, resolve, clock) {
      NewChannelsFromUrls(urls[..n], channelOf, resolve, clock, c);
      var k :| 0 <= k < n && channelOf(urls[..n][k]).Some? && c == NewChannel(resolve(channelOf(urls[..n][k]).value), clock(k));
      assert urls[..n][k] == urls[k];
    } else {
      assert channelOf(urls[n]).Some? && c == NewChannel(resolve(channelOf(urls[n]).value), clock(n));
    }
  }
}
