# HianimeDownloader core, modelled in Dafny

This project models the decision logic of the HianimeDownloader anime
downloader: the extractor in `extractors/hianime.py` and the prompt and
retry helpers in `tools/functions.py`. The model covers the following.

- **Stream discovery** (`capture_media_requests`). The loop polls the
  browser's request log once per attempt. It looks for the episode's master
  manifest and for English subtitle candidates. It re-clicks the server
  button and refreshes the page on fixed attempt numbers. At the end it
  resolves what it found into the returned `urls` record.
  - `Discovery` gives this as a pure state machine, with the invariants the
    loop keeps.
  - `Extractor.HianimeExtractor` holds the same loop as imperative code
    over the object's fields. `ScanRequests` is proved equal to `ScanLog`,
    `PollMediaRequests` to `Poll`, and `CaptureMediaRequests` to
    `Discover`. The other methods of the class (`RecordCapture`,
    `ProgressHook`, `MaxEta`, `ReportProgress`) are specified directly by
    their `ensures`.
- **Variant choice, one episode's downloads, cleanup** (`Downloads`):
  - `look_for_variants`, which picks a variant playlist;
  - the sequence of `yt_dlp_download` calls `download_episode` makes;
  - the temporary files removed after a cancelled download;
  - the episode-range filters of `get_episode_urls` and `download_from_json`.
- **Progress bookkeeping** (`Extractor`). The yt-dlp progress hook writes
  `download_progress`. One pass of the wait-for-downloads loop computes the
  largest ETA and prunes finished threads.
- **Server choice** (`Servers`). `get_server_options` picks the button block
  for the download type. `find_server_button` resolves a server name from
  three sources, in order:
  - the `--server` argument;
  - the configured default servers;
  - a numbered prompt.

  It then looks the name up again, exactly, on the reloaded page.
- **Naming** (`Naming`):
  - the sub/dub decision;
  - the subtitles-for-dub question;
  - the folder type suffix;
  - title sanitisation (`TITLE_TRANS`);
  - the episode file names.
- **Helpers** (`Prompts`). `get_conformation`, `get_int_in_range` and
  `safe_remove` from `tools/functions.py`.
  - The keyboard is a script of answers, one per `input()` call. A
    recursive re-ask consumes the next answer.
  - The file system seen by `safe_remove` is a script of outcomes, one per
    attempt.
- **Shared pieces** (`Basics`, `Text`). Python's list comprehension filter,
  `list.remove`, and the first/last-match loops. The parts of Python's
  string semantics the source relies on: `str.strip`, `str.lower`, `in`,
  `str.endswith`, `int(str)` and `str(int)`.

Network access, the browser and language detection are parameters:
- the request-log snapshots;
- the HTML of the episode list, given as parsed links;
- the lines of the master playlist;
- `urljoin` as a function argument;
- `detect_lang(...) == SUBTITLE_LANG` as a predicate `isTarget` on the
  lower-cased URL.

Python's `None` is the empty string where the source only tests truthiness:
the server argument, the default type and the server selection.

The source's quirks are modelled as written:
- URLs are lower-cased before they are compared or stored.
- The subtitle repeat counter is never reset and is shared by all
  candidates. With a lone candidate, its second sighting ends the search
  (hianime.py:726-729).
- The multi-subtitle prompt accepts `len(all-vtt) + 1`, which indexes past
  the end (`Discovery.ChoicePastEnd`).
- Cleanup stops at the first leftover whose removal raises an error other
  than PermissionError; the leftovers after it are not tried
  (`Downloads.RemoveLeftovers`).
- Declining to skip subtitles leaves `urls` without a `vtt` key
  (`Discovery.DeclineLeavesNoVtt`). `run` then fails on that missing key
  (`Extractor.HianimeExtractor.RecordCapture` returns `false`).
- The skip test of `download_episode` can never skip (`Downloads.SkipTest`).
- `--server` is matched with no `break`, so the last match wins
  (`Servers.ServerArgWins`).
- Subtitle downloads record their progress under the key `""`
  (`Downloads.ProgressKeys`).

## Model

| member | source | states |
|---|---|---|
| Basics.Keep | extractors/hianime.py:829-833 | the filtered list is no longer than the input; every element it keeps is from the input and passes; every passing element of the input is kept |
| Basics.RemoveFirst | extractors/hianime.py:316 | `list.remove` of an element that occurs drops exactly one element |
| Basics.FirstIndex | extractors/hianime.py:590-594 | a first-match loop with `break`: the index found holds the element and no earlier index does; none is found exactly when the element is absent |
| Basics.LastIndex | extractors/hianime.py:581-584 | a match loop without `break`: the index found holds the element and no later index does; none is found exactly when the element is absent |
| Text.LowerIdempotent | extractors/hianime.py:700 | lower-casing an already lower-cased URL changes nothing |
| Text.LowerNoCapitals | extractors/hianime.py:700 | no ASCII capital is left after lower-casing, and every other character is unchanged |
| Text.NatToString | extractors/hianime.py:410-412 | `str(n)` of a natural number is a non-empty string of digits |
| Text.BlankIsNotInt | tools/functions.py:20-26 | `int()` of a blank answer fails |
| Text.ParseDigits | tools/functions.py:23 | `int()` of a plain digit string is the number the digits denote |
| Text.ParseNegative | tools/functions.py:23 | `int()` of a minus sign followed by digits is the negated value |
| Text.NatRoundTrip | tools/functions.py:23 | `int(str(n)) == n` for every natural number |
| Prompts.Ask | tools/functions.py:5-13 | a re-asking prompt returns the value of the first valid answer and consumes exactly the answers up to it; when the answers run out, none were valid |
| Prompts.GetConformation | tools/functions.py:5-13 | the reply is true exactly for y/yes/true and false exactly for n/no/false once lower-cased; every earlier answer was neither, and running out means no answer was either |
| Prompts.ReadMeaning | tools/functions.py:19-23 | an answer reads as blank exactly when it strips to nothing, and as an integer exactly when `int()` accepts it, with that value |
| Prompts.ReadNat | tools/functions.py:23 | the answer `str(n)` reads as the integer `n` |
| Prompts.IntPrompt | tools/functions.py:16-32 | the answer that ends the prompt is either an integer within the bounds, returned as is, or a blank answer while the default is set, returning the default |
| Prompts.GetIntInRange | tools/functions.py:16-32 | the same for `get_int_in_range` with Python's reading of answers |
| Prompts.BlankTakesDefault | tools/functions.py:20-21 | a blank first answer returns the default after one answer, without a range check |
| Prompts.ParseErrorForgetsDefault | tools/functions.py:22-26 | after a non-integer answer the prompt restarts without the default, so a later reply is an in-range integer from the second answer on |
| Prompts.RangeErrorKeepsDefault | tools/functions.py:28-32 | after an integer out of range the prompt restarts with the same default |
| Prompts.IntPromptStopsAtAccepted | tools/functions.py:16-32 | the reply comes from an answer the prompt accepts under the default in force at that point (dropped once any earlier answer was not an integer), and is the value read from it |
| Prompts.IntPromptSkipsRejected | tools/functions.py:16-32 | every answer before the reply (all of them, if the answers run out) is one the prompt rejects under the default then in force, so the reply is the first accepted answer |
| Prompts.SafeRemove | tools/functions.py:35-46 | at most `retries` attempts; every attempt before the last met a PermissionError; it gives up exactly when all `retries` attempts did; otherwise the last attempt decides the result (another error propagates); it sleeps `delay` once after each PermissionError and at no other time; the result is the verdict `RemovalFrom` gives of the first attempt that meets no PermissionError |
| Discovery.ScanRequest | extractors/hianime.py:696-732 | scanning one request never changes the attempt number or the trace of browser actions |
| Discovery.ScanLog | extractors/hianime.py:696-732 | nor does scanning a whole log |
| Discovery.PollStep | extractors/hianime.py:688-739 | while the loop condition holds, there is a log for the current attempt, and the loop is one scan of it followed by the end of the attempt |
| Discovery.InitialInv | extractors/hianime.py:681-687 | the initial state satisfies the discovery invariant (with subtitles off, the subtitle side starts satisfied) |
| Discovery.SightKeeps | extractors/hianime.py:697-732 | one answered request keeps the invariant: manifest and headers set together, and the manifest qualifies; candidates are distinct and qualifying; the subtitle side is satisfied only once the repeat counter reaches the candidate count, so the candidate list is non-empty. The findings only grow: the manifest is never replaced and candidates are only appended |
| Discovery.ScanLogKeeps | extractors/hianime.py:696-732 | the same for the scan of a whole log |
| Discovery.PollKeeps | extractors/hianime.py:688-739 | the loop keeps the invariant and only lets the findings grow; it ends with the loop condition false, after at most `max_retries + 1` attempts; it changes nothing when the condition is false at the start |
| Discovery.PollTrace | extractors/hianime.py:733-738 | `attempt` grows by one per iteration, and the browser-action trace is exactly the scheduled actions of the attempts made, in order |
| Discovery.TriggersOf | extractors/hianime.py:733-738 | the end of attempt `a` re-clicks exactly when `a` is in SERVER_REFRESH (7, 22, 37, 52) and refreshes exactly when `a` is in DOWNLOAD_REFRESH (15, 30, 45) |
| Discovery.ScheduleSound | extractors/hianime.py:733-738 | every action in the schedule belongs to an attempt that was made, and to an attempt number in the matching schedule |
| Discovery.ScheduleIncludes | extractors/hianime.py:733-738 | the actions of every attempt that was made appear in the schedule |
| Discovery.ScheduleComplete | extractors/hianime.py:733-738 | every scheduled refresh and re-click of an attempt that was made is in the trace |
| Discovery.ScanLogManifestSource | extractors/hianime.py:703-712 | after a scan, the manifest and its headers are either unchanged or come from one and the same answered request of the log |
| Discovery.PollManifestSource | extractors/hianime.py:703-712 | the manifest and headers the loop ends with come from one and the same logged request |
| Discovery.SubtitlesOffStopsAtManifest | extractors/hianime.py:682-690 | with subtitles off, the loop ends with the attempt whose scan finds the manifest |
| Discovery.SecondSightingEndsSearch | extractors/hianime.py:726-729 | with a single candidate, its second sighting ends the subtitle search |
| Discovery.RescanCounts | extractors/hianime.py:726-730 | while no new candidate appears, the shared repeat counter grows by at least the number of distinct candidates sighted |
| Discovery.RescanEndsSearch | extractors/hianime.py:726-730 | a log that shows every known candidate again, and no new one, ends the subtitle search |
| Discovery.ResolveResult | extractors/hianime.py:741-771 | nothing is returned exactly when no manifest was found; otherwise the manifest, headers and candidates are returned as found, and a chosen subtitle is one of the candidates |
| Discovery.DiscoverResult | extractors/hianime.py:680-771 | the whole call returns nothing exactly when no manifest was found. Otherwise it returns an unclaimed master manifest, with the headers of the very request it came from; distinct qualifying subtitle candidates; and a chosen subtitle from among them. It makes at most `max_retries + 1` attempts |
| Discovery.SingleCandidateNoPrompt | extractors/hianime.py:753-756 | with subtitles requested and one candidate, that candidate is the subtitle, whatever the answers |
| Discovery.NoSubtitlesNoVtt | extractors/hianime.py:741-771 | with subtitles not requested the result has no `vtt` key and subtitles stay off |
| Discovery.DeclineLeavesNoVtt | extractors/hianime.py:745-752 | declining to skip subtitles, when the search was unsatisfied, leaves subtitles on while the result has no `vtt` key |
| Discovery.ChoicePastEnd | extractors/hianime.py:764-769 | the subtitle prompt accepts `len(all-vtt) + 1`, and that choice indexes past the end of the candidate list |
| Extractor.HianimeExtractor.constructor | extractors/hianime.py:53-135 | a new extractor has the given retry limit and subtitle flag, no claimed URLs and no progress entries |
| Extractor.HianimeExtractor.ScanRequests | extractors/hianime.py:696-732 | the imperative request scan of one attempt ends in the state the specification scan `ScanLog` gives |
| Extractor.HianimeExtractor.PollMediaRequests | extractors/hianime.py:681-739 | the imperative `while` loop ends with the findings and browser-action trace of the state machine `Poll` |
| Extractor.HianimeExtractor.CaptureMediaRequests | extractors/hianime.py:680-771 | the method returns what `Discover` returns and the trace of `Poll`; `args.subtitles` changes only through the "skip subtitles?" answer |
| Extractor.HianimeExtractor.RecordCapture | extractors/hianime.py:285-288 | the manifest is claimed whenever present; the subtitle is claimed only with subtitles on and a `vtt` key; the call fails (`KeyError`) exactly when a needed key is missing |
| Extractor.HianimeExtractor.ProgressHook | extractors/hianime.py:789-799 | "downloading" sets only the episode's entry to its ETA, "finished" sets it to done, and any other status changes nothing |
| Extractor.HianimeExtractor.MaxEta | extractors/hianime.py:307-312 | the result is at least every reported ETA, and is 0 or one of them |
| Extractor.HianimeExtractor.ReportProgress | extractors/hianime.py:306-320 | one pass of the wait loop: the largest ETA as above, `eta_min * 60 + eta_sec` is that ETA with `eta_sec < 60`, and the threads left are exactly the alive ones, in order |
| Extractor.PruneFinished | extractors/hianime.py:313-316 | removing finished threads from a copy-iterated list leaves exactly the alive threads, in their original order |
| Extractor.PruneStep | extractors/hianime.py:313-316 | each iteration keeps the alive threads seen so far followed by the threads not yet visited |
| Naming.GetDownloadType | extractors/hianime.py:450-466 | the reply is sub exactly for sub/s and dub exactly for dub/d once stripped and lower-cased; every earlier answer was neither |
| Naming.ChooseDownloadType | extractors/hianime.py:172-184 | no dub episodes gives sub, and otherwise no sub episodes gives dub, without asking; with both, a valid default decides without asking, else the prompt decides. Dub is never chosen without dub episodes, and a question is asked only when both exist and there is no valid default |
| Naming.WantSubtitles | extractors/hianime.py:186-188 | subtitles are never turned on; for a dub with subtitles on, exactly one answer is read, and only "y" (stripped, lower-cased) keeps them; otherwise nothing is asked |
| Naming.YesIsNotY | extractors/hianime.py:188 | the answer "yes" turns subtitles off |
| Naming.FolderSuffixMeaning | extractors/hianime.py:331-339 | the suffix is empty exactly when a default type is set and equals the type case-insensitively; otherwise it is " (Sub)" or " (Dub)" |
| Naming.DefaultTypeNoSuffix | extractors/hianime.py:172-176 | a default type that decided the download never appears in the folder name |
| Naming.Sanitise | extractors/hianime.py:115-133 | the sanitised title has no bad character, takes its characters from the title, and keeps every other character of it |
| Naming.SanitiseIdempotent | extractors/hianime.py:131-133 | sanitising twice equals sanitising once |
| Naming.SanitiseFixes | extractors/hianime.py:131-133 | a title is unchanged exactly when it has no bad character |
| Naming.SanitiseAppend | extractors/hianime.py:131-133 | sanitising distributes over concatenation, so the order of the kept characters is preserved |
| Naming.Pad2 | extractors/hianime.py:410-412 | `:02` formatting gives at least two characters, all digits for a natural number, and a minus sign before the digits for a negative one |
| Naming.Pad2Value | extractors/hianime.py:410-412 | the padded digits of a natural number denote it |
| Naming.Pad2RoundTrip | extractors/hianime.py:410-412 | `int(f"{n:02}") == n` for every integer |
| Naming.SeasonNameEndsWithTitle | extractors/hianime.py:411-412 | a season episode name ends with the sanitised title |
| Naming.OvaNameShiftsNumber | extractors/hianime.py:408-410 | an OVA name is the season name of the number shifted by the offset, followed by " (OVA)" |
| Naming.MovieNameIsTitle | extractors/hianime.py:406-407 | a movie name is the sanitised title followed by " (Movie)", whatever the numbering |
| Naming.SeasonNamesDistinct | extractors/hianime.py:411-412 | two natural-numbered season episodes get the same file name only if season, number and sanitised title all agree |
| Downloads.VariantIsFirstQualifying | extractors/hianime.py:774-786 | `look_for_variants` returns the first variant line, stripped and joined to the master URL |
| Downloads.NoVariantGivesEmpty | extractors/hianime.py:782-784 | with no variant line, the result is `""` |
| Downloads.VariantIgnoresOtherLines | extractors/hianime.py:778-781 | non-variant lines before the first variant, and any lines after it, do not change the result |
| Downloads.SkipTest | extractors/hianime.py:413-415 | the skip test never skips, and raises exactly when the `m3u8` key is missing |
| Downloads.DownloadEpisode | extractors/hianime.py:402-447 | the calls one episode makes. Without a manifest key it raises. Without headers it makes no call. Otherwise it first downloads the variant to `<name>.mp4` under the episode's name. The subtitle download to `<name>.vtt` follows only after a completed video and with a non-empty `vtt`. SRT conversion follows exactly when `srt` is on and the subtitle download did not raise. The `.vtt` is removed exactly when the conversion succeeded. With no subtitle to fetch, the video is the only call |
| Downloads.ProgressKeys | extractors/hianime.py:418-436 | the video download records progress under the episode's name and the subtitle download under `""` |
| Downloads.CleanupTargets | extractors/hianime.py:828-834 | the removed files are exactly the listed files that match `location[:-4] + ".*"` and do not end in `.mp4` or `.vtt` |
| Downloads.CleanupSparesResults | extractors/hianime.py:829-833 | the finished video and subtitle of the episode are never removed |
| Downloads.PartFileRemoved | extractors/hianime.py:829-833 | yt-dlp's `<name>.mp4.part` is removed when present |
| Downloads.RemoveLeftovers | extractors/hianime.py:828-834 | one `safe_remove` (5 tries) per target, in order, each with the result `RemovalFrom` gives; a target reports failure exactly when all five of its attempts met a PermissionError; only the last target tried can have raised, and a target is left untried only after one raised; with no raising target every target is tried |
| Downloads.RemoveEach | extractors/hianime.py:829-834 | the removal loop over given targets: the same prefix-up-to-the-first-error result as `RemoveLeftovers`, for any list of targets |
| Downloads.GetEpisodeUrls | extractors/hianime.py:659-678 | the loop builds the episode list of the specification `EpisodeList` |
| Downloads.EpisodeListAppend | extractors/hianime.py:667-677 | listing distributes over the page, so episodes keep the page's order |
| Downloads.EpisodeListExact | extractors/hianime.py:667-677 | every listed episode is in range and comes from a link, with its URL resolved; every link in range is listed |
| Downloads.JsonEpisodes | extractors/hianime.py:367-370 | the episodes started from a JSON file are from the file and in range, and every in-range episode of the file is started |
| Downloads.JsonKeepsListedRange | extractors/hianime.py:368-370 | filtering the episodes listed for a range by the same range keeps all of them |
| Downloads.JsonNarrows | extractors/hianime.py:368-370 | filtering by two ranges in turn is filtering once by their intersection |
| Servers.GetServerOptions | extractors/hianime.py:570-574 | no block raises `IndexError`; a lone block serves every type; otherwise sub/s takes the first block and every other type the second |
| Servers.NormIgnoresCase | extractors/hianime.py:583 | server names compare case-insensitively |
| Servers.NormIgnoresLeadingSpace | extractors/hianime.py:583 | leading white space plays no part in a comparison |
| Servers.ServerArgIgnoresCase | extractors/hianime.py:581-584 | `--server` selects the same button whatever its case |
| Servers.DefaultStringIsOneName | extractors/hianime.py:587-589 | a single default-server name is tried like a one-name list, and an empty one like no setting at all |
| Servers.DefaultSelectionNone | extractors/hianime.py:586-596 | if no default name matches an option with non-empty text, the defaults select nothing |
| Servers.DefaultSelectionAt | extractors/hianime.py:586-596 | the first default name, in list order, whose first match has non-empty text selects that text |
| Servers.DefaultSelectionOffered | extractors/hianime.py:586-596 | a default selection is the text of an offered option |
| Servers.PromptChoice | extractors/hianime.py:607-623 | a prompted choice is an offered name, and the index error happens only with no options |
| Servers.FindServerButton | extractors/hianime.py:576-640 | the imperative method returns exactly what the specification `ServerButton` gives |
| Servers.ButtonLoop | extractors/hianime.py:633-640 | the exact re-lookup returns the first reloaded button whose text equals the selection |
| Servers.ServerArgLoop | extractors/hianime.py:580-584 | the `--server` loop ends with the text of the last option that matches after normalisation, or nothing |
| Servers.PromptLoop | extractors/hianime.py:607-623 | the numbered list and the prompt give the choice of `PromptChoice` |
| Servers.DefaultLoop | extractors/hianime.py:586-596 | the nested default-server loops give the default selection |
| Servers.FirstMatchLoop | extractors/hianime.py:591-594 | the inner loop returns the text of the first option matching the name |
| Servers.ServerArgWins | extractors/hianime.py:580-584 | a `--server` match with non-empty text decides, and it is the last matching option, whatever the defaults and answers |
| Servers.FirstDefaultWins | extractors/hianime.py:586-596 | without a `--server` match, the first matched default decides, through its first matching option |
| Servers.UnmatchedDefaultIgnored | extractors/hianime.py:590-594 | a default name no option matches contributes nothing |
| Servers.BlankPicksFirstServer | extractors/hianime.py:615-623 | when the arguments select nothing, a blank answer picks the first server |
| Servers.NumberPicksServer | extractors/hianime.py:615-623 | when the arguments select nothing, an answer `k` in `1..len(options)` picks server `k` |
| Servers.EmptyPageSelectsNothing | extractors/hianime.py:607-623 | with no buttons nothing is ever chosen, and the index error occurs exactly when the prompt accepts an answer |
| Servers.SelectionIsOffered | extractors/hianime.py:580-623 | whatever decides it, the selection is the text of an offered button |
| Servers.SamePageFindsButton | extractors/hianime.py:630-640 | if the reloaded page offers the same buttons, a selected button is always found again |

## Left out

- Text.Lower: lower-cases ASCII letters only. Python's `str.lower` also maps non-ASCII letters, so some non-ASCII URLs, titles and answers would compare differently. `Text.Strip` uses Python's full white-space set.
- Text.ParseInt: reads ASCII digits only. Python's `int()` also accepts other Unicode decimal digits (`int("٣") == 3`), which the model reads as not a number, so such an answer is asked again and the default dropped.
- Text.Strip: no contract of its own. Its shape properties (no leading or trailing white space) are not stated. The prompts only need its blank test and the fact that it leaves an already-stripped answer unchanged (`Text.StripUnchanged`).
- Naming.EpisodeName: its three f-string forms are the function itself and carry no ensures. What is proved about them is in `Naming.SeasonNameEndsWithTitle`, `Naming.OvaNameShiftsNumber`, `Naming.MovieNameIsTitle` and `Naming.SeasonNamesDistinct`.
- Extractor.HianimeExtractor.MaxEta: ETAs are natural numbers, not yt-dlp's floats. Negative or fractional ETAs are not modelled.
- Discovery.Poll: one request-log snapshot is supplied for every attempt the loop could make (`|snaps| > max_retries`). The browser's live log, and what refreshes and re-clicks do to it, are not modelled.
- Selenium and selenium-wire: setting up the driver, stealth, clicking buttons, restarting the driver and `click_server_button`. These are foreign browser calls, and they appear only as the `ServerReclick` and `PageRefresh` events of the trace.
- Network calls are parameters: the `requests.get` of subtitles and playlists, `detect_lang`, `urljoin`, and the Jikan year lookup `get_anime_year`.
- HTML scraping in `get_anime`, `get_anime_from_link` and the BeautifulSoup parse of `get_episode_urls`. These are library calls; the episode list is given as parsed links.
- `yt_dlp_download`'s inside is not modelled: the options, the download itself and its `KeyboardInterrupt` handling. Each call is a given `Ending`. The `glob` listing is a given list of file names. Glob metacharacters in the stem and hidden files are not modelled.
- `vtt_to_srt` is not part of this model; its success is the input `convertOk`. `get_confirmation` is not part of this model either; its answer is the input `skipSubtitles`.
- Threads, the progress lock, `time.sleep` and the outer `while threads` loop. Only one pass of it is modelled, as a sequential step over a snapshot of alive flags.
- Console output and colours, JSON reading and writing, `os.makedirs` and `os.path.abspath`.
- The episode-range, season, OVA-offset and movie-year prompts of `run` (hianime.py:190-231). They are plain `get_int_in_range` calls, which `Prompts.GetIntInRange` models.
- The answer script running out (`OutOfInput`, `ChoiceOutOfInput`, `SelectionOutOfInput`) has no counterpart in the source, where `input()` would block. It is how the model stays total.
- Python's `None` and `""` are not told apart where the source only tests truthiness.
