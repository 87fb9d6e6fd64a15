# LinguaLeo-Uploader, modelled in Dafny

LinguaLeo-Uploader (`script.py`) watches a list of YouTube channels.
Each run does three things:

- it asks the YouTube API for every channel's videos published after the
  channel's `last_refresh` watermark;
- it publishes each of those videos, with English subtitles converted to
  SubRip by `leo/xml2srt.py`, on LinguaLeo through a browser;
- it saves the config, with each watermark moved one second past the latest
  video attempted. Every video whose upload failed goes into a queue
  (`extra_videos`) that the next run retries.

The model covers the bookkeeping of that engine and the caption transcoder:

- **Sync** (`sync.dfy`): the run as values.
  - The channels are walked in order and each channel's new videos in
    publication order.
  - A failed upload queues the video's record.
  - The watermark moves after every attempt.
  - The queue of earlier failures is retried.
  - An exception the loops do not catch stops the run: a network error, an
    unparsable timestamp, or a channel without `new_videos`.
- **Uploader** (`uploader.dfy`): the `LeoUploader` object as a class.
  - It has the fields `channels`, `extraVideos` and `erroneousVideos`.
  - Its methods update them in place with the loops of the source.
  - Each method is proved against the Sync and Intake functions.
- **Intake** (`intake.dfy`): what `write_extra_videos` and
  `write_new_channels` add to the config.
- **Ordering** (`ordering.dfy`): `sorted(..., key=published_at)`.
  - Python's string order.
  - A stable insertion sort, proved sorted and a permutation.
- **Timestamps** (`timestamps.dfy`): `_add_one_second` over a proleptic
  Gregorian calendar.
  - `strptime`/`strftime` of `%Y-%m-%dT%H:%M:%SZ` and their round trip.
  - The fractional-second truncation done before it.
- **Titles** (`titles.dfy`): `_generate_video_title`.
- **Links** (`links.dfy`): the three `re.search` URL patterns, with
  leftmost-match semantics.
- **Captions** (`captions.dfy`): `convert` and `_format_time` of
  `leo/xml2srt.py`.
  - Times are decomposed and written.
  - Written times are read back by an independent parser.
  - The SRT text is split back into its lines.
- **Decimal** (`decimal.dfy`) and **Options** (`options.dfy`): digit strings
  and an option type.

The outside world is modelled as function parameters (oracles):

| oracle | stands for | outcome it returns |
|---|---|---|
| `upload` | the browser publish step, given the number of attempts the session made before it and the record | Uploaded, Failed (AttributeError) or NetworkError; NetworkError stands for TimeoutException, ServerNotFoundError and any other exception `_upload_video` raises besides AttributeError (URLError, NoSuchElementException, …): each ends the run, and the `finally` saves the config |
| `search` | the YouTube video search | — |
| `lookup` | the YouTube video lookup | — |
| `resolve` | the YouTube channel lookup | — |
| `clock` | `datetime.now()`, read once for each channel URL | — |

Because the outcome is indexed by the attempt, the same record can fail in
one attempt and go through in a later one of the same run. The class holds
the oracle in a `Browser` object whose attempt counter its methods advance.

The Sync and Intake functions are also parametrised by the watermark step
and the URL searches. The class instantiates these parameters with
`Timestamps.NextWatermark`, `Links.ExtractVideoId` and
`Links.ExtractChannel`, and its methods' contracts name those functions.

Four behaviours of the code a reader may not expect:

- A `TEDEd` title keeps its `TEDEd - ` prefix after the speaker name is cut
  (script.py:423-429).
- `_format_time` does not round the seconds. `divmod` leaves them whole, so
  59.6 s is written as 59 s and 600 ms (`Captions.SecondsNotRounded`). The
  rounding quirk the code does have is in the millisecond field: a fraction of 0.9995 s or more is written as
  `1000` and is not carried into the seconds (leo/xml2srt.py:46-51,
  `Captions.MillisecondsNotCarried`).
- Queued videos can be lost: `save_config` writes `erroneous_videos` as the
  next queue. After a network error the extras not yet retried are not in it
  (script.py:139-143, 522-528, `Sync.ExtrasLostOnNetworkError`).
- A channel whose search failed keeps the `new_videos` an earlier run saved,
  and those videos are attempted again. A channel that never had a successful
  search has no `new_videos`, and the run stops with KeyError
  (script.py:81-98, 112).

## Model

| member | source | states |
|---|---|---|
| Decimal.Digits | leo/xml2srt.py:25 | `str(n)` is at least one character, exactly one when n < 10 |
| Decimal.DigitsSpell | leo/xml2srt.py:25 | `str(n)` is a digit string denoting n, with a leading '0' only for 0 |
| Decimal.ZeroPad | leo/xml2srt.py:53 | `'{:0Nd}'` has max(N, digits of n) characters |
| Decimal.ZeroPadSpell | script.py:409 | the zero-padded field is a digit string denoting n, exactly N long when n fits in N digits |
| Timestamps.Tick | script.py:408 | adding `timedelta(seconds=1)` gives a well-formed datetime exactly one second later, in the same or a later year |
| Timestamps.Parse | script.py:407 | `strptime` succeeds only on a 20-character punctuated layout and a valid date in years 1..9999 |
| Timestamps.ParseFormat | script.py:407-409 | `strptime` reads back exactly the datetime `strftime` wrote, and the text is 20 characters with 'T' and 'Z' |
| Timestamps.Format | script.py:409 | `strftime` of the ISO 8601 layout; Timestamps.ParseFormat states that `strptime` reads back exactly the datetime it wrote |
| Timestamps.AddOneSecond | script.py:397-409 | the result parses to one second after the input; it fails exactly when the input does not parse or the next second is outside years 1900..9999 |
| Timestamps.NextSecondInRange | script.py:408-409 | the next second's year is in 1900..9999 iff its instant lies between the starts of 1900 and 10000 |
| Timestamps.TruncateToSecond | script.py:126 | `published_at[:-5] + 'Z'`; Timestamps.WatermarkOfFractionalTime and Timestamps.WatermarkOfWholeSecondTime state what it leaves of a time with and without a fractional tail |
| Timestamps.NextWatermark | script.py:123-127 | the watermark stored after a video: one second after the whole second it was published in when its time has a ".sssZ" tail (Timestamps.WatermarkOfFractionalTime), and a failure when it has none (Timestamps.WatermarkOfWholeSecondTime) |
| Timestamps.WatermarkOfFractionalTime | script.py:123-127 | for a published-at time with a five-character fractional tail, truncation gives the whole second and the watermark is one second after it |
| Timestamps.WatermarkOfWholeSecondTime | script.py:125-127 | a published-at time without fractional seconds, "YYYY-MM-DDTHH:MM:SSZ", loses "M:SSZ" (the last minute digit, the colon, the seconds and the "Z"), and `_add_one_second` fails on the 16 characters left |
| Timestamps.YearCarry | script.py:408 | the last second of a year carries into 1 January of the next |
| Timestamps.FebruaryCarry | script.py:408 | 28 February 23:59:59 carries into 29 February exactly in leap years |
| Titles.LastOccurrence | script.py:424 | the last index where the separator occurs, with no occurrence after it, or None when there is none |
| Titles.HeadBeforeLast | script.py:424 | `rsplit(' - ', 1)[0]`: Titles.TEDEdTitleExample and Titles.TEDEdNoSpeakerExample state that it cuts at the last separator and keeps a title without one whole |
| Titles.GenerateVideoTitle | script.py:411-429 | alias '-' gives the bare title; other aliases prefix "alias - "; 'TEDEd' cuts the title at its last " - " and keeps the prefix |
| Titles.PlainTitleExamples | script.py:426-429 | ("-", "Foo") gives "Foo" and ("ACME", "Foo") gives "ACME - Foo" |
| Titles.TEDEdTitleExample | script.py:423-429 | ("TEDEd", "Talk - Jane Doe") gives "TEDEd - Talk" |
| Titles.TEDEdNoSpeakerExample | script.py:423-429 | a TEDEd title without " - " is kept whole |
| Links.FixedAfter | script.py:189 | `prefix(.{n})` matches at p iff the prefix is there and n characters without newline follow; the group is those characters |
| Links.UpToNewline | script.py:229 | greedy `.*` takes the longest newline-free prefix |
| Links.FirstMatch | script.py:190 | `re.search` finds the leftmost matching position, and no position before it matches |
| Links.FirstMatchIs | script.py:190 | any position that matches with no match before it is the one found |
| Links.Search | script.py:190 | `re.search(...).group(1)`; Links.SearchLeftmost states its meaning |
| Links.SearchLeftmost | script.py:190 | `re.search` gives the capture at the leftmost position where the pattern matches, and None iff it matches at no position |
| Links.ExtractVideoId | script.py:189-191 | the id is the capture of the leftmost position where the pattern matches: 11 newline-free characters right after "youtube.com/watch?v=" or "youtu.be/"; None iff the pattern matches nowhere |
| Links.WatchUrlId | script.py:189-191 | a watch URL yields the 11 characters after "watch?v=" |
| Links.ExtractChannel | script.py:225-237 | a channel id is the 24-character capture of the leftmost "youtube.com/channel/" match; a user name is the capture of the leftmost "youtube.com/user/" match, used only when the channel pattern matches nowhere; None iff neither matches |
| Ordering.StrLeTotal | script.py:117 | Python's string order is total |
| Ordering.StrLeTrans | script.py:117 | Python's string order is transitive |
| Ordering.Insert | script.py:117 | insertion adds one element, at the front or after the old head |
| Ordering.InsertSorted | script.py:117 | insertion keeps a list sorted by publication time |
| Ordering.InsertPermutes | script.py:117 | insertion adds exactly the inserted video |
| Ordering.SortByPublished | script.py:117 | `sorted(new_videos, key=published_at)`: Ordering.SortByPublishedSorted and Ordering.SortByPublishedPermutes state that it orders the videos and is a permutation of them |
| Ordering.SortByPublishedSorted | script.py:117 | the sort orders the videos by `published_at` |
| Ordering.SortByPublishedPermutes | script.py:117 | the sort is a permutation of the new videos |
| Ordering.LastIsLatest | script.py:117 | in a sorted list the last video is published no earlier than any other |
| Ordering.LatestAttemptedLast | script.py:117-128 | the video attempted last is one of the new videos and the latest of them |
| Sync.AttemptVideo | script.py:117-128 | one pass of the inner loop; Sync.AttemptVideoEffect states what it does |
| Sync.AttemptVideoEffect | script.py:117-128 | one pass queues the record iff its attempt fails, counts one attempt, goes on iff the attempt meets no network error and the watermark parses, and then sets the watermark past the video; on a stop it leaves the watermark as it was |
| Sync.AttemptVideos | script.py:117-128 | the inner loop; Sync.AttemptVideosComplete, Sync.AttemptVideosQueue, Sync.AttemptVideosStopped and Sync.AttemptVideosAborted state what it does |
| Sync.AttemptVideosAborted | script.py:117-128 | a loop that stops, stops at some video j: the videos before it go through, attempt j meets a network error or an unreadable time, j + 1 attempts are counted, and the watermark is the one set after video j - 1, or the starting one when j is 0, which is what the `finally` at lines 525-528 saves |
| Sync.SyncChannel | script.py:110-128 | one channel of the outer loop; Sync.ChannelWatermark, Sync.SyncChannelComplete and Sync.SyncChannelAborted state what it does |
| Sync.SyncChannelAborted | script.py:110-128 | a channel that stops the run is saved (by the `finally` at lines 525-528) unchanged but for its watermark; without `new_videos` it is saved as it was; otherwise it stops at some video j of its sorted videos and keeps the watermark set after video j - 1, or its own when j is 0 |
| Sync.SyncChannelsAborted | script.py:106-128 | an outer loop that stops, stops at some channel k: the channels before k are saved as they ran, channel k as Sync.SyncChannel leaves it, and the later ones untouched |
| Sync.RetryExtras | script.py:130-143 | the retry loop; Sync.RetryExtrasComplete, Sync.FailedExtrasMembers and Sync.RetryExtrasStopped state what it does |
| Sync.UploadRun | script.py:522-528 | new videos, then extras unless the first stopped; Sync.RunQueue, Sync.QuietRun and Sync.RetriedVideoLeaves state what it does |
| Sync.AnyNewVideos | script.py:97 | `any(channel['new_videos'] ...)`; Sync.NoNewVideos and Sync.AnyNewVideosRaises state when it is false and when it raises |
| Sync.AnyVideosToUpload | script.py:90-98 | `any_videos_to_upload`; Sync.NothingToUpload states when it is false |
| Sync.Wrap | script.py:266-273 | a failed upload queues the record once; success or a network error queues nothing |
| Sync.SyncChannels | script.py:106-128 | the loop keeps one entry per channel |
| Sync.Failures | script.py:117-121 | a channel's failures hold at most one record per video |
| Sync.FailuresMembers | script.py:117-121 | a record is among a channel's failures iff it is the record of some video k of the channel and attempt n + k of it fails |
| Sync.AttemptVideosStopped | script.py:117-128 | after an uncaught exception the remaining videos are not attempted |
| Sync.AttemptVideosQueue | script.py:117-121 | the inner loop attempts a prefix of the videos, and its queue is the earlier queue followed by the failures of exactly that prefix |
| Sync.AttemptVideosComplete | script.py:117-128 | when nothing raises: the queue gains exactly the failures in order tried, and the watermark comes from the last video (unchanged if none) |
| Sync.ChannelWatermark | script.py:112-128 | a channel whose videos all go through ends with the watermark of its latest new video, queues its failures in publication order, and changes nothing else |
| Sync.SyncChannelsStopped | script.py:106-128 | after an abort, the later channels are kept unchanged and the queue and status stay |
| Sync.SyncChannelQueue | script.py:110-121 | one channel's queue is the earlier queue followed by a prefix of the channel's failures |
| Sync.SyncChannelComplete | script.py:110-128 | a channel runs to its end iff it has `new_videos` and all of them go through, and then it queues exactly its failures and counts one attempt per video |
| Sync.SyncChannelRunning | script.py:110-128 | a channel that runs to its end queues its own failures and counts its own attempts |
| Sync.SyncChannelsQueue | script.py:106-121 | the outer loop's queue is the earlier queue followed by a prefix of all channels' failures, in channel order |
| Sync.RetryExtrasComplete | script.py:139-143 | without a network error, the retry queues exactly the extras that fail again, in order |
| Sync.FailedExtrasMembers | script.py:139-143 | a queued video is queued again iff its retry at some queue position k, attempt n + k, fails |
| Sync.DuplicateRetriedTwice | script.py:139-143 | a record queued twice whose first retry fails and second goes through is queued again once |
| Sync.ExtrasLostOnNetworkError | script.py:139-143 | a network error on the first extra stops the run with none of the old queue kept |
| Sync.RetryExtrasStopped | script.py:139-143 | after a network error no further extra is retried |
| Sync.RetryExtrasNetwork | script.py:139-143 | a network error on the retry of queued video k, attempt tries + k, stops the retry loop |
| Sync.NothingToUpload | script.py:90-98 | `any_videos_to_upload` is false iff every channel has empty `new_videos` and the queue is empty |
| Sync.NoNewVideos | script.py:97 | `any(new_videos)` is false iff every channel's list is empty |
| Sync.AnyNewVideosRaises | script.py:97 | `any(...)` raises KeyError iff it reaches a channel without `new_videos`, with every earlier one empty |
| Sync.QuietChannels | script.py:106-128 | channels with no new videos come out of the loop unchanged |
| Sync.QuietRun | script.py:515-528 | a run with nothing to upload changes no watermark and saves the queue it started with |
| Sync.ChannelsStatus | script.py:106-128 | the outer loop runs to its end iff every channel has `new_videos` and every attempt goes through |
| Sync.ChannelsRunning | script.py:106-128 | when the outer loop runs to its end, the queue gains every channel's failures and one attempt is counted per video |
| Sync.ChannelsComplete | script.py:106-128 | the outer loop runs to its end iff nothing raises, and then the queue gains every channel's failures, channel after channel, each channel's attempts numbered after the previous one's |
| Sync.RunQueue | script.py:522-528 | the run completes iff nothing raises, and then the saved queue is the channels' failures followed by the extras that failed again, the retries numbered after the channels' attempts |
| Sync.ChannelsSyncedAlone | script.py:106-128 | when nothing raises, every channel ends as it would synced alone from its own first attempt |
| Sync.SyncChannelErrsIndependent | script.py:117-128 | a channel's new watermark does not depend on what was queued before |
| Sync.AttemptVideosErrsIndependent | script.py:117-128 | the inner loop's watermark and status do not depend on the earlier queue |
| Sync.RetriedVideoLeaves | script.py:522-528 | in a completed run, a record neither queued before nor by the channels ends in the saved queue iff one of its retries failed |
| Intake.VideoIds | script.py:189-191 | the list comprehension of ids; Intake.VideoIdsAllOrNothing states its meaning |
| Intake.VideoIdsAllOrNothing | script.py:189-191 | the id list exists iff every URL has an id, with one id per URL in order |
| Intake.VideoIdsStopped | script.py:190-191 | one URL without an id fails the whole list |
| Intake.NewExtras | script.py:193-215 | one record per id |
| Intake.NewExtrasAt | script.py:195-215 | record i is built from id i and what the lookup reports for it |
| Intake.NewChannelEntry | script.py:249-253 | the dict appended as written; Intake.NewChannelEntryUnreadable states that a later run cannot read it |
| Intake.NewChannelEntryUnreadable | script.py:249-253 | the dict appended as written has none of the keys `id`, `name`, `last_refresh` that a later run reads |
| Intake.NewChannel | script.py:249-253 | the added channel has the resolved id and title, no `new_videos`, and the time read for its URL as watermark |
| Intake.ChannelFromUrl | script.py:225-253 | a URL adds at most one channel, and none iff neither channel pattern matches |
| Intake.NewChannels | script.py:219-253 | the loop of `write_new_channels`; Intake.NewChannelsAppend, Intake.NewChannelsCount and Intake.NewChannelsFromUrls state its meaning |
| Intake.NewChannelsAppend | script.py:225-233 | the URLs are independent: a skipped URL does not stop those after it, and each URL reads the clock at its own position |
| Intake.NewChannelsCount | script.py:225-253 | at most one channel per URL, and exactly one each iff every URL matches |
| Intake.NewChannelsFromUrls | script.py:239-253 | every added channel comes from a matched URL k and carries what was resolved for it and the time read for URL k |
| Uploader.Loaded | script.py:83-88 | a channel's `new_videos` becomes the search result, or stays when the search fails; nothing else changes |
| Uploader.Browser.constructor | script.py:78 | a new browser session has made no attempt yet |
| Uploader.Browser.Publish | script.py:283-338 | one publish attempt: its outcome is the oracle's for the attempts made before it and the record, and the session counts one more attempt |
| Uploader.LeoUploader.constructor | script.py:64-79 | the object holds the config's credentials, channels and queue, no failures yet, and a new browser session |
| Uploader.LeoUploader.LoadNewVideos | script.py:81-88 | every channel is replaced by its loaded version; the queues are unchanged |
| Uploader.LeoUploader.AnyVideosToUpload | script.py:90-98 | false iff no channel has a new video and no video is queued |
| Uploader.LeoUploader.UploadVideoWrapper | script.py:255-281 | one attempt of the session; a failure is appended to the failures once, and the channels and queue are unchanged |
| Uploader.LeoUploader.AttemptVideoAt | script.py:117-128 | one inner pass updates channel i's watermark, the failures, the session's attempt count and the status as Sync.AttemptVideo says |
| Uploader.LeoUploader.SyncChannelAt | script.py:110-128 | channel i, raising KeyError without `new_videos`, leaves the state Sync.SyncChannel describes |
| Uploader.LeoUploader.AttemptVideosAt | script.py:117-128 | the inner loop over the sorted videos of channel i leaves the state Sync.AttemptVideos describes |
| Uploader.LeoUploader.AddNewVideos | script.py:100-128 | the outer loop leaves channels, failures, attempt count and status as Sync.SyncChannels describes |
| Uploader.LeoUploader.AddExtraVideos | script.py:130-143 | the retry loop leaves the failures, attempt count and status as Sync.RetryExtras describes; the channels and queue are unchanged |
| Uploader.LeoUploader.SaveConfig | script.py:161-174 | the given videos are appended to the failures, and the saved config holds the credentials, channels and failures as the next queue |
| Uploader.LeoUploader.WriteExtraVideos | script.py:180-217 | with a URL without an id nothing is saved; otherwise the saved queue is the failures, the old queue and one record per URL |
| Uploader.LeoUploader.AddChannelFor | script.py:225-253 | one URL appends the channel Intake.ChannelFromUrl gives |
| Uploader.LeoUploader.WriteNewChannels | script.py:219-253 | the channels gain Intake.NewChannels of the URLs, in order, each stamped with the time read for it; the queues are unchanged |
| Uploader.LeoUploader.SyncAndSave | script.py:522-528 | new videos, then extras unless stopped; channels, failure list, attempt count, status and the saved config are those of Sync.UploadRun, and the queued `extra_videos` are left as they were |
| Uploader.LeoUploader.UploadMain | script.py:513-528 | the channels are loaded; if `any_videos_to_upload` raises KeyError nothing is saved and nothing is attempted; otherwise channels, failure list, attempt count, status and the saved config are those of Sync.UploadRun over the loaded channels; in both cases the queued `extra_videos` are left as they were |
| Uploader.VideoIdsOf | script.py:189-191 | the loop over the URLs gives Intake.VideoIds of them |
| Uploader.ExtrasFor | script.py:193-215 | the loop over the ids gives Intake.NewExtras of them |
| Captions.Decompose | leo/xml2srt.py:44-46 | hours, minutes, seconds and fraction add back up to the time; minutes and seconds are in 0..59 and the fraction in [0, 1) |
| Captions.DecomposeUnique | leo/xml2srt.py:44-46 | no other decomposition satisfies that |
| Captions.Round | leo/xml2srt.py:48-51 | `round` is within one half of its argument |
| Captions.Millis | leo/xml2srt.py:51 | milliseconds are within half a millisecond of the fraction and at most 1000, with 1000 iff the fraction is at least 0.9995 s |
| Captions.FormatTime | leo/xml2srt.py:33-53 | `_format_time`; Captions.FormatTimeReadsBack and Captions.FormatTimeFields state what the written time reads back as, Captions.FormatTimeShape its layout, Captions.SampleTextWhole and Captions.SampleTextHalf two texts in full |
| Captions.FormatTimeShape | leo/xml2srt.py:53 | for t >= 0 the text is digits, a colon, two digits, a colon, two digits, a comma and digits; the hours take at least two digits and exactly two below 100; the milliseconds take exactly three below 1000 |
| Captions.SampleTextWhole | leo/xml2srt.py:44-53 | 1.0 s is written "00:00:01,000" |
| Captions.SampleTextHalf | leo/xml2srt.py:44-53 | 3.5 s is written "00:00:03,500" |
| Captions.FormatTimeFields | leo/xml2srt.py:44-53 | the written time reads back as the decomposition with the rounded milliseconds |
| Captions.FormatTimeReadsBack | leo/xml2srt.py:33-53 | the written time reads back as whole hours, minutes and seconds adding up to the whole seconds of t, with milliseconds within half a millisecond |
| Captions.SampleTimes | leo/xml2srt.py:44-53 | the text written for 1.0 s reads back as 0 h 0 min 1 s 0 ms, and that for 3.5 s as 0 h 0 min 3 s 500 ms |
| Captions.SecondsNotRounded | leo/xml2srt.py:44-53 | 59.6 s is written with 59 seconds and 600 milliseconds: the seconds are not rounded |
| Captions.MillisecondsNotCarried | leo/xml2srt.py:46-53 | 59.9996 s is written with 59 seconds and 1000 milliseconds |
| Captions.FormatTimeOneLine | leo/xml2srt.py:53 | a written time holds no newline |
| Captions.SrtLines | leo/xml2srt.py:21-28 | four lines per cue |
| Captions.SrtLinesAt | leo/xml2srt.py:22-28 | block k is the number k+1, "start --> end", the text and an empty line |
| Captions.SrtLinesLine | leo/xml2srt.py:22-28 | line j belongs to block j / 4 |
| Captions.CueLines | leo/xml2srt.py:25-28 | the four lines of one cue; Captions.SrtLinesAt and Captions.ConvertLines state them |
| Captions.Join | leo/xml2srt.py:30 | `'\n'.join`; Captions.SplitJoin states that splitting gives newline-free lines back |
| Captions.Convert | leo/xml2srt.py:9-30 | the result is the newline join of the collected lines |
| Captions.ConvertEmpty | leo/xml2srt.py:21-30 | no cues give empty text |
| Captions.ConvertEndsWithNewline | leo/xml2srt.py:28-30 | with a cue, the text ends with a newline |
| Captions.SplitJoin | leo/xml2srt.py:30 | splitting a join of newline-free lines gives the lines back |
| Captions.ConvertSplitsBack | leo/xml2srt.py:21-30 | when no time or text holds a newline, the SRT text splits back into exactly the collected lines |
| Captions.ConvertLines | leo/xml2srt.py:21-30 | the SRT text splits into four lines per cue: its number from 1, its two written times, its text and an empty line |

## Left out

- The browser automation is not modelled: `sign_in`, the form filling of
  `_upload_video` and its publish-polling loop. One upload is the oracle
  `upload`, which gives one of three outcomes for the attempt number and the
  record. CredentialsError is not modelled.
- The YouTube API calls are not modelled. `_get_new_videos`, the video and
  channel lookups and `maxResults=50` are the oracles `search`, `lookup` and
  `resolve`. The IndexError of an empty `items` list is not modelled.
- Uploader.LeoUploader.LoadNewVideos: the search result depends only on the channel
  entry, and HttpError is the None of `search`.
- `_download_video_subtitles` is not modelled: the subtitle download, HTML
  unescaping and the file it writes.
- The BeautifulSoup parse and the `float()` of `start` and `dur` are not
  modelled: Captions.Convert takes the cues already parsed.
- Captions.Round: reals stand in for IEEE doubles, so float error near a
  half-millisecond tie is not modelled.
- The JSON files are not modelled: reading the config in `__init__`, the
  write of `save_config`, `create_config`, `set_default_config`,
  `get_default_config` and `clear_extra_videos`. The constructor takes the
  config's values.
- Messages printed are not modelled, and neither is the exception text
  raised from `_upload_video_wrapper`.
- The argument handling of `main` (script.py:479-512) is not modelled.
  Lines 513-528 are Uploader.LeoUploader.UploadMain.
- Uploader.LeoUploader.UploadMain: `sign_in` (script.py:516-520) is left
  out, so the early return on CredentialsError, which also saves nothing,
  is not modelled.
- Timestamps.Parse: only the zero-padded layout is read. The one-digit
  fields and other leniencies of `strptime` are not modelled.
- Intake.NewChannel: the model's channel record has one field per key the
  sync reads, so the key mismatch of the finding below is kept only in
  Intake.NewChannelEntry.
- Ordering.SortByPublished: the stability of the sort holds by
  construction, but it is not stated as a lemma.
- The `video_title.encode('utf-8')` of `_generate_video_title` is not
  modelled. Its result is discarded, and its UnicodeDecodeError on non-ASCII
  byte strings is not modelled.
- leo/leo_uploader.py, caption_convert.py, argparser.py, run.py and setup.py
  are not part of this model.

## Findings

| source | as written | input that shows it | evidently intended | confidence | as-written member | corrected member |
|---|---|---|---|---|---|---|
| script.py:249-253 | `write_new_channels` appends a channel under the keys `channel_title`, `channel_id` and `current_time` | any matched channel URL; the next run's `_get_new_videos` reads `channel['id']` and raises KeyError, which `load_new_videos` does not catch | the keys `name`, `id` and `last_refresh` that `_get_new_videos` and `add_new_videos` read | medium, not executed | Intake.NewChannelEntryUnreadable | Intake.NewChannel |
