/**
 * The URL patterns of script.py, searched as `re.search` does: the leftmost
 * position where the pattern matches wins, and '.' matches any character
 * except a newline.
 *
 *   VideoLink    (?:youtube\.com/watch\?v=|youtu\.be/)(.{11})   (write_extra_videos)
 *   ChannelLink  youtube\.com/channel/(.{24})                  (write_new_channels)
 *   UserLink     youtube\.com/user/(.*)                        (write_new_channels)
 */
module Links {
  import opened Options

  const WatchPrefix: string := "youtube.com/watch?v="
  const ShortPrefix: string := "youtu.be/"
  const ChannelPrefix: string := "youtube.com/channel/"
  const UserPrefix: string := "youtube.com/user/"

  datatype Pattern = VideoLink | ChannelLink | UserLink

  /** How a channel URL names its channel: by its id or by a user name. */
  datatype ChannelRef = ById(id: string) | ByUserName(name: string)

  predicate NoNewline(s: string) {
    forall i | 0 <= i < |s| :: s[i] != '\n'
  }

  predicate HasPrefixAt(s: string, p: int, prefix: string) {
    0 <= p && p + |prefix| <= |s| && s[p..p + |prefix|] == prefix
  }

  /** `prefix(.{n})` matched at position p: the n characters after the prefix. */
  function FixedAfter(s: string, p: int, prefix: string, n: nat): (r: Option<string>)
    ensures r.Some? <==> HasPrefixAt(s, p, prefix) && p + |prefix| + n <= |s|
                         && NoNewline(s[p + |prefix|..p + |prefix| + n])
    ensures r.Some? ==> r.value == s[p + |prefix|..p + |prefix| + n]
  {
    if HasPrefixAt(s, p, prefix) && p + |prefix| + n <= |s|
       && NoNewline(s[p + |prefix|..p + |prefix| + n])
    then Some(s[p + |prefix|..p + |prefix| + n])
    else None
  }

  /** The longest prefix of s without a newline: what a greedy `.*` takes. */
  function UpToNewline(s: string): (r: string)
    ensures r <= s && NoNewline(r)
    ensures |r| < |s| ==> s[|r|] == '\n'
  {
    if s == [] || s[0] == '\n' then [] else [s[0]] + UpToNewline(s[1..])
  }

  /** `prefix(.*)` matched at position p. */
  function RestAfter(s: string, p: int, prefix: string): Option<string> {
    if HasPrefixAt(s, p, prefix) then Some(UpToNewline(s[p + |prefix|..])) else None
  }

  /** The pattern's capture group if it matches at exactly position p. */
  function MatchAt(pat: Pattern, s: string, p: int): Option<string> {
    match pat
    case VideoLink =>
      var watch := FixedAfter(s, p, WatchPrefix, 11);
      if watch.Some? then watch else FixedAfter(s, p, ShortPrefix, 11)
    case ChannelLink => FixedAfter(s, p, ChannelPrefix, 24)
    case UserLink => RestAfter(s, p, UserPrefix)
  }

  /** The leftmost position at or after `from` where the pattern matches. */
  function FirstMatch(pat: Pattern, s: string, from: nat): (r: Option<nat>)
    ensures r.Some? ==> from <= r.value <= |s| && MatchAt(pat, s, r.value).Some?
    ensures r.Some? ==> forall q | from <= q < r.value :: MatchAt(pat, s, q).None?
    ensures r.None? ==> forall q | from <= q <= |s| :: MatchAt(pat, s, q).None?
    decreases |s| + 1 - from
  {
    if from > |s| then None
    else if MatchAt(pat, s, from).Some? then Some(from)
    else FirstMatch(pat, s, from + 1)
  }

  /** `re.search(pattern, s).group(1)`, None where re.search finds nothing. */
  function Search(pat: Pattern, s: string): Option<string> {
    match FirstMatch(pat, s, 0)
    case Some(p) => MatchAt(pat, s, p)
    case None => None
  }

  /** Search gives the capture of the leftmost position where the pattern matches, and None when it matches nowhere. */
  lemma SearchLeftmost(pat: Pattern, s: string)
    ensures Search(pat, s).Some? ==> exists p | 0 <= p <= |s| ::
      MatchAt(pat, s, p) == Search(pat, s) && forall q | 0 <= q < p :: MatchAt(pat, s, q).None?
    ensures Search(pat, s).None? <==> forall p | 0 <= p <= |s| :: MatchAt(pat, s, p).None?
  {
    var f := FirstMatch(pat, s, 0);
    if f.Some? {
      assert MatchAt(pat, s, f.value) == Search(pat, s);
    }
  }

  /**
   * The video id `write_extra_videos` takes from a URL: the 11 characters
   * right after the leftmost "youtube.com/watch?v=" or "youtu.be/" that is
   * followed by 11 characters on the same line.
   */
  function ExtractVideoId(url: string): (r: Option<string>)
    ensures r.Some? ==> |r.value| == 11 && NoNewline(r.value)
    ensures r.Some? ==> exists p | 0 <= p <= |url| ::
      || (HasPrefixAt(url, p, WatchPrefix) && p + |WatchPrefix| + 11 <= |url| && r.value == url[p + |WatchPrefix|..p + |WatchPrefix| + 11])
      || (HasPrefixAt(url, p, ShortPrefix) && p + |ShortPrefix| + 11 <= |url| && r.value == url[p + |ShortPrefix|..p + |ShortPrefix| + 11])
    ensures r.Some? ==> exists p | 0 <= p <= |url| ::
      MatchAt(VideoLink, url, p) == r && forall q | 0 <= q < p :: MatchAt(VideoLink, url, q).None?
    ensures r.None? <==> forall p | 0 <= p <= |url| :: MatchAt(VideoLink, url, p).None?
  {
    SearchLeftmost(VideoLink, url);
    var r := Search(VideoLink, url);
    if r.Some? then
      var p := FirstMatch(VideoLink, url, 0).value;
      assert HasPrefixAt(url, p, WatchPrefix) || HasPrefixAt(url, p, ShortPrefix);
      r
    else r
  }

  /**
   * The channel `write_new_channels` takes from a URL: the 24 characters
   * after "youtube.com/channel/" when that pattern matches anywhere,
   * otherwise the rest of the line after "youtube.com/user/", otherwise None.
   */
  function ExtractChannel(url: string): (r: Option<ChannelRef>)
    ensures r.Some? && r.value.ById? ==> |r.value.id| == 24
    ensures r.Some? && r.value.ById? ==> exists p | 0 <= p <= |url| ::
      MatchAt(ChannelLink, url, p) == Some(r.value.id) && forall q | 0 <= q < p :: MatchAt(ChannelLink, url, q).None?
    ensures r.Some? && r.value.ByUserName? ==>
      && (forall p | 0 <= p <= |url| :: MatchAt(ChannelLink, url, p).None?)
      && exists p | 0 <= p <= |url| ::
           MatchAt(UserLink, url, p) == Some(r.value.name) && forall q | 0 <= q < p :: MatchAt(UserLink, url, q).None?
    ensures r.None? <==> forall p | 0 <= p <= |url| ::
      MatchAt(ChannelLink, url, p).None? && MatchAt(UserLink, url, p).None?
  {
    SearchLeftmost(ChannelLink, url);
    SearchLeftmost(UserLink, url);
    match Search(ChannelLink, url)
    case Some(id) => Some(ById(id))
    case None =>
      match Search(UserLink, url)
      case Some(name) => Some(ByUserName(name))
      case None => None
  }

  /** The leftmost match is the one FirstMatch finds. */
  lemma {:induction false} FirstMatchIs(pat: Pattern, s: string, from: nat, p: nat)
    requires from <= p <= |s| && MatchAt(pat, s, p).Some?
    requires forall q | from <= q < p :: MatchAt(pat, s, q).None?
    ensures FirstMatch(pat, s, from) == Some(p)
    decreases p - from
  {
    if from < p {
      FirstMatchIs(pat, s, from + 1, p);
    }
  }

  /**
   * The id of a watch URL is the 11 characters after "watch?v=" whenever
   * nothing before the host can start a match (no 'y' in the scheme).
   */
  lemma {:induction false} WatchUrlId(scheme: string, id: string)
    requires |id| == 11 && NoNewline(id)
    requires forall i | 0 <= i < |scheme| :: scheme[i] != 'y'
    ensures ExtractVideoId(scheme + WatchPrefix + id) == Some(id)
  {
    var u := scheme + WatchPrefix + id;
    var p := |scheme|;
    assert u[p..p + 20] == WatchPrefix && u[p + 20..p + 31] == id;
    assert MatchAt(VideoLink, u, p) == Some(id);
    forall q | 0 <= q < p ensures MatchAt(VideoLink, u, q).None? {
      assert u[q..q + |WatchPrefix|][0] == u[q] == scheme[q] != WatchPrefix[0];
      assert u[q..q + |ShortPrefix|][0] == u[q] != ShortPrefix[0];
    }
    FirstMatchIs(VideoLink, u, 0, p);
  }
}
