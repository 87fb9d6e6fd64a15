/**
 * `_generate_video_title` of script.py: the name under which a video is
 * submitted, built from the channel's alias and the video's own title.
 */
module Titles {
  import opened Options

  const Separator: string := " - "

  /** `sep` occurs in s starting at index i. */
  predicate OccursAt(s: string, sep: string, i: int) {
    0 <= i && i + |sep| <= |s| && s[i..i + |sep|] == sep
  }

  /** The last index at most `hi` where sep occurs in s (str.rfind, restricted). */
  function LastOccurrence(s: string, sep: string, hi: int): (r: Option<nat>)
    ensures r.Some? ==> r.value <= hi && OccursAt(s, sep, r.value)
    ensures r.Some? ==> forall j | r.value < j <= hi :: !OccursAt(s, sep, j)
    ensures r.None? ==> forall j | 0 <= j <= hi :: !OccursAt(s, sep, j)
    decreases hi + 1
  {
    if hi < 0 then None
    else if OccursAt(s, sep, hi) then Some(hi)
    else LastOccurrence(s, sep, hi - 1)
  }

  /** `s.rsplit(sep, 1)[0]`: everything before the last occurrence of sep, or all of s. */
  function HeadBeforeLast(s: string, sep: string): string {
    match LastOccurrence(s, sep, |s|)
    case Some(i) => s[..i]
    case None => s
  }

  /**
   * The submitted title. Alias '-' gives the bare video title; every other
   * alias is prefixed as "<alias> - "; for alias 'TEDEd' the video title is
   * first cut at its last " - " (a trailing speaker name), and the prefix is
   * still added.
   */
  function GenerateVideoTitle(channelName: string, videoTitle: string): (r: string)
    ensures channelName == "-" ==> r == videoTitle
    ensures channelName != "-" && channelName != "TEDEd" ==> r == channelName + Separator + videoTitle
    ensures channelName == "TEDEd" ==>
      && |r| >= 8 && r[..8] == "TEDEd - "
      && var head := r[8..];
      && head <= videoTitle
      && (|| (head == videoTitle && forall j | 0 <= j <= |videoTitle| :: !OccursAt(videoTitle, Separator, j))
          || (&& OccursAt(videoTitle, Separator, |head|)
              && forall j | |head| < j <= |videoTitle| :: !OccursAt(videoTitle, Separator, j)))
  {
    var title := if channelName == "TEDEd" then HeadBeforeLast(videoTitle, Separator) else videoTitle;
    if channelName == "-" then title else channelName + Separator + title
  }

  /** The two plain cases on sample titles. */
  lemma PlainTitleExamples()
    ensures GenerateVideoTitle("-", "Foo") == "Foo"
    ensures GenerateVideoTitle("ACME", "Foo") == "ACME - Foo"
  {
  }

  /** A TED-Ed title loses its trailing speaker name but keeps the prefix. */
  lemma TEDEdTitleExample()
    ensures GenerateVideoTitle("TEDEd", "Talk - Jane Doe") == "TEDEd - Talk"
  {
    var t := "Talk - Jane Doe";
    assert OccursAt(t, Separator, 4) by {
      assert t[4..7] == Separator;
    }
    forall j | 4 < j <= |t|
      ensures !OccursAt(t, Separator, j)
    {
      assert t[5] == '-' && t[6] == ' ' && t[7] == 'J' && t[8] == 'a' && t[9] == 'n';
      assert t[10] == 'e' && t[11] == ' ' && t[12] == 'D';
    }
    assert HeadBeforeLast(t, Separator) == "Talk";
  }

  /** A TED-Ed title without " - " is kept whole. */
  lemma TEDEdNoSpeakerExample()
    ensures GenerateVideoTitle("TEDEd", "Talk") == "TEDEd - Talk"
  {
    var t := "Talk";
    forall j | 0 <= j <= |t|
      ensures !OccursAt(t, Separator, j)
    {
      assert t[0] == 'T' && t[1] == 'a';
    }
    assert HeadBeforeLast(t, Separator) == t;
  }
}
