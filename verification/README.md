# YouTube DeepSearch, modelled in Dafny

YouTube DeepSearch is a desktop tool. It searches YouTube by keyword or by channel,
filters and ranks the videos it finds by an "outlier score", and extracts their
transcripts. It reads captions first and falls back to speech recognition with
Whisper. This project models the decision logic of that tool as pure Dafny
functions and methods and proves properties of it:

- the YouTube API client (`youtube_api.py`):
  - the duration parser and the quota tracker;
  - the video filter and the structure of the outlier scoring;
  - the paginated search and channel loops;
  - the transcript tiers: caption-track choice, fragment clean-up, the Whisper
    outcome mapping and the batch coordinator;
- the caption-only extractor (`transcript_extractor.py`): URL-to-id extraction, the
  two-pass language search, the batch keying and the save rule;
- the quick extractor window (`quick_transcript_extractor.py`): id extraction, the
  caption chooser with its source label, the input-line split, output naming and
  success counting;
- the GUI's pure helpers (`main.py`):
  - `format_duration` and the checked-set state of `CheckboxTreeview`;
  - the column sort and the parsing of the search form;
  - the transcript export: file names, duplicate avoidance and the success test.

Every remote collaborator is an oracle given as data. This covers the YouTube Data
API pages and detail replies, channel statistics, caption listings, the yt-dlp and
Whisper steps, the file system (a set of existing paths plus a predicate telling which
paths can be opened), and `str.isalnum`. Everything else is deterministic given these.

Modules, one per file: `Wrappers`, `Text`, `Quota`, `Duration`, `Videos`, `Outlier`,
`Search`, `Captions`, `Whisper`, `Acquire`, `VideoId`, `Extractor`, `Quick`,
`Naming`, `Batch`, `Display`, `Checkbox`, `Positions`, `Sorting`, `SearchForm`,
`Export`, `ExportLoop`.

## Model

| member | source | states |
|---|---|---|
| Duration.ParseDuration | youtube_api.py:231-241 | Text that does not start with `PT` (including `P1DT2H`) is 0 seconds. |
| Duration.ParseEncode | youtube_api.py:231-241 | For every token `PT[nH][nM][nS]` with any subset of fields, parsing its text gives 3600·H+60·M+S. Trailing text that cannot extend the last field is ignored. |
| Duration.ExampleFull | youtube_api.py:231-241 | "PT1H2M3S" is 3723 seconds. |
| Duration.ExampleMinutes | youtube_api.py:231-241 | "PT10M" is 600 seconds. |
| Duration.ExampleEmpty | youtube_api.py:231-241 | "PT" is 0 seconds. |
| Duration.ExampleOutOfOrder | youtube_api.py:231-241 | "PT5S10M" is 5: the match stops after `5S`. |
| Duration.ExampleDays | youtube_api.py:231-241 | "P1DT2H" is 0. |
| Duration.ExampleGarbage | youtube_api.py:231-241 | "garbage" is 0. |
| Quota.Use | youtube_api.py:62-69 | The counter grows by the amount, never decreasing for a non-negative amount. The warning is printed exactly when the new total reaches the threshold, and it reports the limit minus the new total. |
| Quota.GetStatus | youtube_api.py:71-78 | The status reports the tracker's own used count and limit, and used plus remaining is the limit. Remaining is non-negative exactly when the tracker is within its limit. |
| Quota.FreshBudget | youtube_api.py:41-60 | A new client, with nothing used of its 10000-unit day, can afford 10000 units but not 10001. |
| Quota.ExhaustedAfterLimit | youtube_api.py:58-69 | After using 10000, not even 1 more is available, and the warning reports 0 remaining. |
| Quota.UseThenAvailable | youtube_api.py:58-64 | Using `a` and then asking for `r` is the same as asking for `a + r` up front. |
| Quota.UseAllTotal | youtube_api.py:62-64 | After a run of uses the counter is the start plus the sum of the amounts. With non-negative amounts it never goes down. |
| Quota.WarningPersists | youtube_api.py:66-69 | With non-negative amounts, once a call has warned, every later call warns too. |
| Videos.Admits | youtube_api.py:243-264 | A video is admitted exactly when views ≥ the floor, subscribers ≤ the bound when a bound is set, and the type's length bound holds: 쇼츠 ≤ 60 s, 롱폼 > 60 s, 20분 초과 > 1200 s. |
| Videos.ZeroBoundIsNoBound | youtube_api.py:252 | A subscriber bound of 0 admits exactly what no bound admits. |
| Videos.TypesAgree | youtube_api.py:255-262 | Shorts and long form are disjoint and cover every length. Over-20-minutes implies long form. |
| Videos.ItemAdmitted | youtube_api.py:172-264 | A detail item is admitted exactly when its view count (0 when absent) reaches the floor, its channel's subscriber count is within the bound when one is set, and its parsed duration fits the type. |
| Videos.FailedLookupPassesBound | youtube_api.py:211-229 | A channel whose lookup raised counts 0 subscribers, so its videos pass any non-negative subscriber bound. |
| Videos.KeepAdmitted | youtube_api.py:148-150 | The filtered list is the input with exactly the rejected records dropped: each admitted record stays as often as it occurs, in the input's order. |
| Videos.KeepAdmittedAppend | youtube_api.py:143-150 | Filtering two lists one after the other gives the same records as filtering them joined, so filtering page by page loses and reorders nothing. |
| Outlier.Score | youtube_api.py:266-292 | Every record gets a non-negative score and nothing else in any record changes. With a positive deviation, the score is the distance of the record's ratio from the mean, divided by the deviation. |
| Outlier.ScoreOrder | youtube_api.py:281-292 | With a positive deviation, a record whose ratio lies further from the batch mean never scores lower, so equal distances score the same. |
| Outlier.ScoreEmpty | youtube_api.py:268-269 | An empty list stays empty. |
| Outlier.ScoreSingle | youtube_api.py:281-288 | A single record uses deviation 1 and scores 0. |
| Outlier.ZeroDeviationScoresZero | youtube_api.py:289-292 | A zero deviation gives every record score 0. |
| Outlier.NoSubscribersScoresZero | youtube_api.py:272-292 | When no record has subscribers, every ratio is 0 and every score is 0. |
| Search.PageSize | youtube_api.py:113-115 | Each request asks for min(50, remaining) items: at least 1, at most 50, never more than still wanted. |
| Search.WindowDays | youtube_api.py:89-101 | A period label maps to 1, 7, 30, 90 or 365 days. No label means no window. |
| Search.CollectRequests | youtube_api.py:108-155 | The loop asks nothing once enough is collected. The first request asks for the page size with the caller's token. Every later request carries a truthy page token. Every request keeps the period window. |
| Search.CollectPages | youtube_api.py:108-155 | A loop that does not raise returns what it had followed by the videos of every page it fetched, whole and in page order. It stops at the first page where enough is collected, the pages run out, the last page had no next token, or a page has no items. |
| Search.SearchVideos | youtube_api.py:80-170 | At most `max_results` records. Every record passed the filter and has a score. A page request that raised gives no records and no requests. |
| Search.SearchReturnsPages | youtube_api.py:80-170 | A search that does not raise returns the first `max_results` of the admitted videos of exactly the pages its loop fetched, in page order, scored together. |
| Search.CollectedAdmitted | youtube_api.py:148-150 | Everything collected across the pages passed the filter. |
| Search.FailedDetailsSkipPage | youtube_api.py:143-209 | A page whose detail request raised adds nothing, and the loop goes on with the next page. |
| Search.RaisedPageAborts | youtube_api.py:133-170 | A page request that raises, once reached, ends the whole search with no result. |
| Search.FirstRequest | youtube_api.py:113-133 | A search for at least one video first asks for the page size, with no token and the period window. |
| Search.NothingRequested | youtube_api.py:108 | A non-positive `max_results` makes no request and returns nothing. |
| Search.ChannelVideos | youtube_api.py:294-348 | A channel that is not found, or whose lookup raised, gives no records and no requests, and so does a page request that raised. There are never more than `max_results` records. |
| Search.ChannelReturnsPages | youtube_api.py:294-348 | A channel listing that does not raise returns the first `max_results` videos of exactly the pages its loop fetched, all of them, in page order, scored together. |
| Search.ChannelFirstPage | youtube_api.py:309-344 | When the first page already has enough records, the result is those records, unfiltered and in order, with scores added. |
| Captions.Kept | youtube_api.py:449-470 | A kept fragment text is non-empty, trimmed, and none of the noise markers. |
| Captions.ProcessedShape | youtube_api.py:441-486 | None exactly when no fragment survives. Otherwise the text is non-empty and trimmed, its only whitespace is single spaces, never two in a row, and it keeps the survivors' non-space characters in order. |
| Captions.CollapseKeepsText | youtube_api.py:479-480 | Collapsing whitespace runs keeps every other character, in order. |
| Captions.FirstCandidate | youtube_api.py:410-431 | None exactly when no language in the list gives a candidate. Any result is longer than 50 characters after stripping. |
| Captions.FirstCandidateIsFirst | youtube_api.py:414-421 | The first language in priority order that gives a candidate wins. |
| Captions.CleanCaption | youtube_api.py:404-439 | A result is a meaningful caption (over 50 stripped characters). A failed listing gives None. |
| Captions.ManualFirst | youtube_api.py:412-421 | When any manual track qualifies in ko, en, ja, zh order, the result is the first manual one. |
| Captions.GeneratedOnlyAfterManual | youtube_api.py:423-431 | A result that is not the manual choice means no manual track qualified. |
| Captions.GeneratedWhenNoManual | youtube_api.py:404-439 | When no manual track qualifies in any priority language, the result is the first qualifying generated track in ko, en, ja, zh order. |
| Captions.TranscriptBatch | youtube_api.py:488-535 | An id is in the results exactly when its caption is meaningful, and is mapped to that caption. An id is among the failures exactly when it is not. |
| Whisper.AfterTempDir | youtube_api.py:560-645 | Recognised text is the stripped recognition, longer than 10 characters. The too-long notice occurs exactly when the probed length exceeds 600 s. A silent None occurs only after a probe or download error. |
| Whisper.Transcribe | youtube_api.py:537-654 | A created temporary directory is always cleaned up. It is created exactly when Whisper is available, a model is loaded, and the directory could be made. Without Whisper the result is None. |
| Whisper.Render | youtube_api.py:595-645 | None exactly for the silent outcome. Every other outcome is the method's string. |
| Whisper.DiagnosticsLookLikeText | youtube_api.py:597-645 | Every diagnostic string is non-empty and not blank. |
| Whisper.LongVideoSkipped | youtube_api.py:593-597 | A video over 600 s is skipped whatever the later steps would do. |
| Whisper.DownloadErrorOutcome | youtube_api.py:599-607 | A download error mentioning 403 gives the restriction notice, and any other download error gives None. |
| Whisper.RecognisedTextAccepted | youtube_api.py:625-637 | A recognised text is accepted exactly when it is over 10 characters after stripping, and it is returned stripped. |
| Acquire.GetVideoTranscript | youtube_api.py:350-394 | Whisper runs only with use_whisper, Whisper available, quota left and no forced caption mode, and only when no caption qualified. Without Whisper the result is the caption. With it, the result is Whisper's string. |
| Acquire.CaptionWins | youtube_api.py:373-376 | A qualifying caption is returned without invoking Whisper. |
| Acquire.CaptionOnlyNeverRunsWhisper | youtube_api.py:364-381 | With quota exhausted or caption-only forced, Whisper never runs, and a failed caption gives None. |
| Acquire.WhisperRunsExactly | youtube_api.py:373-390 | Whisper runs exactly when no caption qualified, the mode is not caption-only, and use_whisper and WHISPER_AVAILABLE hold. |
| VideoId.FromUrl | transcript_extractor.py:18-29 | Any id found is non-empty and contains none of `&`, `?`, `#` or newline. |
| VideoId.WatchUrlId | transcript_extractor.py:20-24 | `https://www.youtube.com/watch?v=ID` followed by a terminator yields ID. |
| VideoId.ShortUrlId | transcript_extractor.py:20-24 | `https://youtu.be/ID` followed by a terminator yields ID. |
| VideoId.EmbedUrlId | transcript_extractor.py:20-24 | `https://www.youtube.com/embed/ID` followed by a terminator yields ID. |
| VideoId.QueryUrlId | transcript_extractor.py:20-28 | A watch URL whose first parameter is not `v` is missed by the first pattern and read by the second: the id after the last `v=` of the line. |
| VideoId.FoundAfterLeadIn | transcript_extractor.py:20-28 | A watch, short-link or embed prefix after text without a `y` yields the id after it. |
| VideoId.SearchFirstMentions | transcript_extractor.py:20-26 | A match of the first pattern means the input mentions youtube.com or youtu.be. |
| VideoId.FromUrlNone | transcript_extractor.py:18-29 | No id is found exactly when neither pattern matches at any position of the input. |
| VideoId.NoMentionNoId | transcript_extractor.py:18-29 | Input that mentions neither `youtube.com` nor `youtu.be` yields no id. |
| VideoId.QuickIdIsFromUrlOrStrip | quick_transcript_extractor.py:139-151 | The quick extractor's id is the other extractor's id when there is one, and the stripped input otherwise. |
| Extractor.FirstAttempt | transcript_extractor.py:57-80 | None exactly when every language's attempt fails. Any result is non-empty and trimmed. |
| Extractor.GetTranscript | transcript_extractor.py:31-96 | A transcript found is non-empty and trimmed, and only an input that resolves to a video id can give one. |
| Extractor.FoundTrackWins | transcript_extractor.py:57-68 | The first language with a usable `find_transcript` track gives the result. |
| Extractor.GeneratedFallback | transcript_extractor.py:70-96 | Only when every `find_transcript` attempt fails does the generated pass decide. |
| Extractor.UnresolvedUrlGivesNone | transcript_extractor.py:43-49 | Input that mentions YouTube is resolved by the URL patterns only: a YouTube URL with no id gives None, and no listing is read. |
| Extractor.StoreAll | transcript_extractor.py:112-125 | A key is stored exactly when some found transcript has it, holding the last such transcript. There is at most one entry per input. |
| Extractor.MultipleTranscripts | transcript_extractor.py:98-125 | Every video with a transcript is stored under its resolved id, with later videos overwriting earlier ones. |
| Extractor.ShortLinkKeyedByLink | transcript_extractor.py:118 | As written, a `youtu.be` link is stored under the whole link, not under the id that was looked up. |
| Extractor.IdKeyIsVideoId | transcript_extractor.py:118 | The corrected key is the looked-up id. It equals the written key on `youtube.com` inputs and on plain ids. |
| Extractor.SaveTranscript | transcript_extractor.py:127-152 | No transcript means False with nothing written. True exactly when a transcript was found and its write succeeded. |
| Quick.QuickText | quick_transcript_extractor.py:165-179 | The join succeeds exactly when every fragment is a dict with a string or absent text. |
| Quick.GetQuickTranscript | quick_transcript_extractor.py:153-190 | A text is non-empty and trimmed. A raised listing gives None with `오류: ` and the message. No qualifying track gives None with `사용 가능한 자막 없음`. |
| Quick.QuickAgreesWithExtractor | quick_transcript_extractor.py:158-185 | For a plain id, the quick chooser picks the same text as the caption-only extractor with ko, en: manual ko, manual en, generated ko, generated en. |
| Quick.SourceLabels | quick_transcript_extractor.py:168-182 | The label says `ko 자막` exactly when the manual Korean track was used. A generated label means both manual tracks failed. |
| Quick.UrlList | quick_transcript_extractor.py:203 | Each entry is a non-empty, stripped line of the input. |
| Quick.NonEmptyInputHasUrl | quick_transcript_extractor.py:198-207 | Non-blank input always has a line, so the "no valid URL" branch cannot be taken. |
| Quick.ExtractOne | quick_transcript_extractor.py:222-252 | One line: the transcript and label when found, saved under the least free `transcript_{id}[_k].txt`, or a write failure, or the missing label. |
| Quick.ExtractAll | quick_transcript_extractor.py:215-256 | Every line is handled given the paths taken before it. The success count is the number of saved items. |
| Quick.StartExtraction | quick_transcript_extractor.py:192-260 | Refuses without a folder, then refuses on blank input. Otherwise every non-blank line is processed in order. |
| Quick.NothingOverwritten | quick_transcript_extractor.py:232-244 | No saved file existed before, and no two lines saved to the same file. |
| Naming.SplitExt | main.py:894 | `os.path.splitext`: the two parts rejoin to the path, and the extension is empty or a dot with no `/`. |
| Naming.JoinPath | main.py:888 | An absolute name replaces the folder. Otherwise the path is the folder, one `/` unless the folder is empty or already ends in one, and the name. |
| Naming.TriedPathInjective | main.py:891-896 | Different rounds try different paths. |
| Naming.UniquePath | main.py:891-896 | The result is the original path when free, else `{name}_{k}{ext}` for the least free k ≥ 1. |
| Batch.NothingOverwritten | main.py:891-898 | When every file was free at its turn, none existed before and no two items share a file. |
| Batch.CountPositions | main.py:925 | The success count is the number of positions whose item counts. |
| Batch.CountExtremes | main.py:964-965 | The count is 0 exactly when no item counts, and equals the number of items exactly when every item counts. |
| Display.ClockFields | main.py:462-464 | h·3600 + m·60 + s is the input, with m, s < 60. |
| Display.FormatRoundTrip | main.py:453-465 | Reading the formatted duration back gives the number of seconds. |
| Display.SecondsForm | main.py:455-456 | Under 60 s the form is `{s}초`. |
| Display.MinutesForm | main.py:457-460 | Under an hour the form is `m:ss` with two-digit seconds. |
| Display.HoursForm | main.py:461-465 | From an hour on the form is `h:mm:ss`. |
| Display.FormatShape | main.py:453-465 | The three forms are told apart by the `초` suffix and the number of colons. |
| Checkbox.ToggleItem | main.py:89-103 | Exactly that item's membership flips, its mark follows, and every other row is unchanged. Validity is kept. |
| Checkbox.ToggleItemTwice | main.py:89-103 | Toggling an item twice restores the tree. |
| Checkbox.ToggleAllFlips | main.py:105-123 | On a valid tree, toggling all clears a full selection and otherwise checks every row. |
| Checkbox.SelectAll | main.py:147-155 | Every row is checked and marked ☑. |
| Checkbox.DeselectAll | main.py:157-165 | No row is checked, and every row is marked ☐. |
| Checkbox.Insert | main.py:125-131 | The new row, valued ☐ followed by its values, is placed at the given index, or at the end when there is none or it is past the end. The other rows keep their order, and the checked set is unchanged. |
| Checkbox.InsertValid | main.py:125-131 | Inserting a new row keeps the tree valid. |
| Checkbox.Delete | main.py:137-141 | The remaining rows are the old rows without the deleted ones, in the same order. The deleted rows leave the values and the checked set, and a valid tree stays valid. |
| Sorting.Toggled | main.py:479-521 | The column's direction flips, and other columns keep theirs. |
| Sorting.Alternates | main.py:479-521 | A fresh column sorts ascending first and alternates on every later call. |
| Sorting.SortTreeview | main.py:476-521 | The sort fails exactly when some row's key cannot be computed. Otherwise the new order is a permutation of the first min(rows, records) positions. It is ordered by the column key in the current direction, and the rows and records move together. |
| Sorting.SortedIsRearrangement | main.py:482-518 | The new record list is a rearrangement of the paired records. |
| Sorting.SortedByColumn | main.py:508-515 | Adjacent records are in key order for the direction. Equal keys keep their original order (stable sort, also in reverse). |
| Sorting.KeyLessOrder | main.py:490-509 | The key order is a strict total order. |
| SearchForm.ParseIntRoundTrip | main.py:360-368 | `int()` reads back every decimal integer. |
| SearchForm.ParseIntIgnoresPadding | main.py:360-368 | `int()` ignores surrounding whitespace. |
| SearchForm.GroupedReadsBack | main.py:236-367 | Every comma-grouped choice reads back to its number in both count fields. |
| SearchForm.ChoicesGrouped | main.py:236-247 | The offered choices are `제한 없음` and comma-grouped numbers. |
| SearchForm.ReadForm | main.py:342-376 | A blank keyword starts nothing. An unreadable number is an input error. Otherwise the search gets the stripped keyword and the parsed fields, `전체` type becomes `all`, `전체` period becomes no window, and `제한 없음` subscribers means no bound. |
| SearchForm.ChoicesStartSearch | main.py:236-376 | Any non-blank keyword with offered choices starts a search with exactly the chosen numbers. |
| Export.Filter | main.py:880-881 | The result is the input with exactly the other characters dropped, in order. Kept are alphanumerics, spaces, `-` and `_`. |
| Export.FilterAppend | main.py:880-881 | Filtering a concatenation concatenates the filtered parts. |
| Export.SafeName | main.py:880-885 | A name part holds only kept characters, does not start with whitespace, and fits its limit. |
| Export.SafeNameFixed | main.py:880-885 | A name that is already safe (kept characters only, no surrounding whitespace, within the limit) is left unchanged. |
| Export.FileNamePlain | main.py:879-887 | A file name is one path component of at most 87 characters. |
| Export.FileNameShape | main.py:887-896 | The extension split at `.txt` is exact, so every alternative is `{folder}/{channel} _ {title}_{k}.txt`. |
| Export.DiagnosticsCountedAsWritten | main.py:915-927 | As written, the too-long, no-audio, too-short and no-text diagnostics are counted as extracted transcripts. |
| Export.FailuresRejectedAsWritten | main.py:917 | As written, the restriction and error diagnostics are rejected by their marker phrase. |
| Export.MarkerInTranscriptRejected | main.py:917 | As written, a real transcript containing the phrase `오류가 발생했습니다` is rejected. |
| Export.DeliveredExactly | main.py:913-927 | Delivered means text that is not a diagnostic. Delivered text is never blank, and every qualifying caption is delivered. |
| Export.ClassifiersDiffer | main.py:915-927 | The written and the intended test disagree only on the four marker-free diagnostics, or on text that quotes a marker phrase. |
| Export.BodyOf | main.py:914-930 | With the corrected test: the file holds the transcript exactly when one was delivered and is not blank. Other text is written as a failure note holding the text. The fixed note is written when there is no text or only blanks. |
| Export.BodyAsWritten | main.py:914-930 | As written: the file holds the transcript exactly when the string passes the marker test. A non-blank string with a marker is written as a failure note, and no text or only blanks give the fixed note. |
| Export.BodiesDiffer | main.py:914-930 | The written and the corrected body differ only for the four marker-free Whisper diagnostics and for a delivered text that quotes a marker phrase. |
| ExportLoop.ExportOne | main.py:888-898 | One video: the least free name, a file written exactly when that path can be opened, and the body. |
| ExportLoop.ExportAll | main.py:870-943 | Every video is handled given the paths taken before it. The count is the number of transcripts written. |
| Export.ExtractTranscripts | main.py:852-871 | Refuses without a selection and does nothing when the folder dialog is cancelled. Otherwise every selected video gets an entry, and the count is at most the selection size. |
| Export.ExportSound | main.py:888-931 | No file is overwritten and no two videos share a file. A video counts exactly when its file opened and its transcript was delivered. |

## Left out

- Tk widgets, dialogs, message boxes, threads, `after` marshalling, progress callbacks,
  `print`, `time.sleep` and `webbrowser` are left out. They are UI, concurrency or
  timing only.
- The network clients and libraries are oracles given as data: googleapiclient,
  youtube_transcript_api, yt_dlp, whisper and requests. `download_thumbnail` is not
  modelled.
- Writing files, `tempfile`, `shutil.rmtree` and `os.listdir` are left out. The file
  system is a set of existing paths plus a predicate telling which paths can be
  opened. Whisper's temporary directory is two plain booleans in the result (created,
  cleanup tried), not a ghost flag.
- Outlier.Score: mean and standard deviation are exact reals. `sqrt` is a parameter
  with no properties assumed, so the score is stated for any value it gives: a
  positive deviation divides, and any other gives every record 0, as the `> 0` guard
  does. `round(…, 2)` and float rounding are not modelled.
- Duration.ParseDuration: Python's `\d` matches every Unicode decimal digit, but the
  model reads ASCII `0`-`9` only. So `PT١H` (Arabic-Indic one) is 3600 seconds in the
  program and 0 here.
- Naming.JoinPath: follows POSIX `posixpath`. The program's main window
  (main.py:878-888) targets Windows, where `ntpath` also treats `\` as a separator
  and handles drive letters. That is not modelled.
- Naming.SplitExt: follows POSIX `posixpath` too, for the same reason.
- Videos.FromItem: takes an item whose counts are already integers and whose keys are
  all present. In the program, a missing key or a count `int()` cannot read raises
  inside the details request and empties the whole page. The model covers that only as
  the details request answering Raised.
- Checkbox.ToggleItem: the program reads a row back through tkinter's `item()`, which
  turns values that look like numbers into ints, so a column holding `007` is written
  back as `7`. The model keeps every other column unchanged.
- Checkbox.ToggleItemTwice: for the same reason, toggling twice restores the row only
  when no other column looks like a number in a non-canonical form. The model does not
  make that conversion.
- Export.BodyOf: writes the body by the corrected test Delivered, not the marker test
  as written at main.py:917. Export.BodyAsWritten models the written test, and
  Export.BodiesDiffer shows where the two differ.
- Display.FormatDuration: has no contract of its own. What it produces is stated by
  Display.FormatRoundTrip and the three form lemmas.
- Quota.GetStatus: the `percentage` float is not modelled.
- `format_number` (the `:.1f` K/M display) is not modelled. It is float formatting
  for display only.
- `search_videos` builds its `publishedAfter` timestamp with `datetime.now()`. That
  is not modelled; only the period-to-days mapping is (Search.WindowDays).
- The `except` branch of `get_video_transcript` (youtube_api.py:396-402) is not
  modelled. It cannot be reached: the caption stage and the Whisper tier catch every
  exception themselves.
- The code after the `finally` of the Whisper tier (youtube_api.py:655-728) is
  unreachable and not modelled.
- Export.SafeName: `str.isalnum` is a parameter, because the Unicode tables are not
  modelled. The file-name lemmas assume only that it rejects `/` and `.`.
- Sorting.SortKey: `str.lower()` lowers ASCII letters only.
- Sorting.SortKey: the published-date key of the channel window is a parameter.
- SearchForm.ParseInt: `int()` accepts ASCII digits only. Other Unicode decimal
  digits are not modelled.
- Export.ExtractTranscripts: the header lines written before the body, the error-log
  file and the per-video `except` branches (main.py:899-904, 933-959) are output only
  and not modelled. A path that cannot be opened is modelled as an entry with no file.
- Export.ExtractTranscripts: the transcript is fetched once per video before the
  loop, because the fetch does not depend on the files created. The success count
  uses the corrected test Delivered, not the string test as written (see Findings).
- Extractor.MultipleTranscripts: stores under the resolved id, not under the
  source's key (see Findings).
- `extract_titles`, `extract_thumbnails`, the channel-analysis window's loading
  code, `config.py` and the test scripts are not modelled. They are UI, network or
  constants. The constants used are inlined: 50 per request, 60-second shorts.

## Findings

| source | as written | input that shows it | evidently intended | confidence | as-written member | corrected member |
|---|---|---|---|---|---|---|
| main.py:915-927 | A fetched string counts as an extracted transcript when it is non-blank and contains neither `오류가 발생했습니다` nor `추출할 수 없습니다`. | Any video without captions, with Whisper available, over 600 s long: the fetch returns `영상이 너무 길어 Whisper 처리를 건너뜁니다. (10분 초과)`, which is written as the transcript and counted. The same holds for the no-audio, too-short and no-text diagnostics (youtube_api.py:597, 618, 635, 637). | Count only captions and recognised speech, never a Whisper diagnostic. | not executed; high | Export.DiagnosticsCountedAsWritten | Export.DeliveredExactly |
| transcript_extractor.py:118 | The batch key is the extracted id only when the input contains `youtube.com`; otherwise it is the input itself. | `https://youtu.be/abc`: `get_transcript` looks up `abc`, but the result is stored under `https://youtu.be/abc`. | Store under the video id, as the docstring's `{video_id: transcript_text}` says. | not executed; medium | Extractor.ShortLinkKeyedByLink | Extractor.IdKeyIsVideoId |
