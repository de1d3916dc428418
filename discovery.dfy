/**
 * The stream-discovery state machine of `capture_media_requests`
 * (extractors/hianime.py): one poll per attempt over the browser's request
 * log, looking for the first unclaimed master manifest and for subtitle
 * candidates, with a page refresh and a server re-click on fixed attempt
 * numbers, then the post-loop resolution of what was found.
 *
 * The pure functions here are the specification; the imperative loop that
 * follows the source line by line is `Extractor.HianimeExtractor.CaptureMediaRequests`.
 */
module Discovery {
  import opened Basics
  import opened Text
  import opened Prompts

  /** `dict(request.headers)`. */
  type Headers = map<string, string>

  /** One entry of the browser's request log. */
  datatype Request = Request(url: string, hasResponse: bool, headers: Headers)

  /** The request log as seen at one attempt (the log is not cleared between attempts). */
  type Log = seq<Request>

  /** Attempt numbers after which the page is refreshed (DOWNLOAD_REFRESH). */
  const DownloadRefresh: seq<nat> := [15, 30, 45]

  /** Attempt numbers after which the server button is clicked again (SERVER_REFRESH). */
  const ServerRefresh: seq<nat> := [7, 22, 37, 52]

  /** Language codes whose presence in a subtitle URL rules it out (OTHER_LANGS). */
  const OtherLangs: seq<string> := [
    "ita", "jpn", "pol", "por", "ara", "chi", "cze", "dan", "dut", "fin", "fre", "ger", "gre", "heb",
    "hun", "ind", "kor", "nob", "pol", "rum", "rus", "tha", "vie", "swe", "spa", "tur", "ces", "bul",
    "zho", "nld", "fra", "deu", "ell", "hin", "hrv", "msa", "may", "ron", "slk", "slo", "ukr"]

  /** What the poll reads from the extractor: `args.max_retries`, `args.subtitles` and the URLs earlier episodes claimed. */
  datatype Config = Config(maxRetries: int, subtitles: bool, capturedVideo: seq<string>, capturedSubtitles: seq<string>)

  /** The `urls` dict: a missing key is `None`. */
  datatype Urls = Urls(m3u8: Option<string>, headers: Option<Headers>, allVtt: seq<string>, vtt: Option<string>)

  /** A browser action the loop triggers, with the (incremented) attempt number that triggered it. */
  datatype Effect = ServerReclick(attempt: nat) | PageRefresh(attempt: nat)

  /** What the loop has found so far: `found_m3u8`, `found_vtt`, `urls` and `previously_found_vtt`. */
  datatype Progress = Progress(foundM3u8: bool, foundVtt: bool, urls: Urls, previouslyFoundVtt: nat)

  /** The loop's local state: what was found, `attempt`, `all_urls`, and the trace of browser actions. */
  datatype Capture = Capture(found: Progress, attempt: nat, allUrls: seq<string>, effects: seq<Effect>)

  /** The state before the first attempt; with subtitles off the subtitle side is already satisfied. */
  function Initial(cfg: Config): Capture
  {
    Capture(Progress(false, !cfg.subtitles, Urls(None, None, [], None), 0), 0, [], [])
  }

  /** A lower-cased URL accepted as the episode's master manifest. */
  predicate IsManifest(uri: string, cfg: Config)
  {
    EndsWith(uri, ".m3u8") && Contains(uri, "master") && uri !in cfg.capturedVideo
  }

  predicate MentionsOtherLang(uri: string)
  {
    exists lang :: lang in OtherLangs && Contains(uri, lang)
  }

  /**
   * A lower-cased URL accepted as a subtitle candidate; `isTarget` stands for
   * fetching it and checking `detect_lang(...) == SUBTITLE_LANG`.
   */
  predicate IsSubtitle(uri: string, cfg: Config, isTarget: string -> bool)
  {
    Contains(uri, ".vtt") && !Contains(uri, "thumbnail") && uri !in cfg.capturedSubtitles
    && !MentionsOtherLang(uri) && isTarget(uri)
  }

  /**
   * What one answered request with lower-cased URL `uri` does to the findings:
   * the manifest branch first (and `continue`), else the subtitle branch, where
   * a repeated candidate raises the repeat counter and a new one is appended.
   */
  function Sight(p: Progress, uri: string, headers: Headers, cfg: Config, isTarget: string -> bool): Progress
  {
    if !p.foundM3u8 && IsManifest(uri, cfg) then
      p.(foundM3u8 := true, urls := p.urls.(m3u8 := Some(uri), headers := Some(headers)))
    else if !p.foundVtt && IsSubtitle(uri, cfg, isTarget) then
      if uri in p.urls.allVtt then
        var seen := p.previouslyFoundVtt + 1;
        p.(previouslyFoundVtt := seen, foundVtt := seen >= |p.urls.allVtt|)
      else
        p.(urls := p.urls.(allVtt := p.urls.allVtt + [uri]))
    else p
  }

  /** The body of the scan over `self.driver.requests`, for one request. */
  function ScanRequest(st: Capture, req: Request, cfg: Config, isTarget: string -> bool): (r: Capture)
    ensures r.attempt == st.attempt && r.effects == st.effects
  {
    if !req.hasResponse then st
    else
      var uri := Lower(req.url);
      st.(found := Sight(st.found, uri, req.headers, cfg, isTarget),
          allUrls := if uri in st.allUrls then st.allUrls else st.allUrls + [uri])
  }

  /** The scan over a whole log, request by request in log order. */
  function ScanLog(st: Capture, log: Log, cfg: Config, isTarget: string -> bool): (r: Capture)
    ensures r.attempt == st.attempt && r.effects == st.effects
    decreases |log|
  {
    if log == [] then st
    else ScanRequest(ScanLog(st, log[..|log| - 1], cfg, isTarget), log[|log| - 1], cfg, isTarget)
  }

  /** The browser actions triggered once `attempt` has been incremented to `a`: re-click first, then refresh. */
  function Triggers(a: nat): seq<Effect>
  {
    (if a in ServerRefresh then [ServerReclick(a)] else []) + (if a in DownloadRefresh then [PageRefresh(a)] else [])
  }

  /** The end of one iteration: `attempt += 1` and the scheduled browser actions. */
  function EndAttempt(st: Capture): Capture
  {
    st.(attempt := st.attempt + 1, effects := st.effects + Triggers(st.attempt + 1))
  }

  /** The loop condition. */
  predicate Searching(st: Capture, cfg: Config)
  {
    (!st.found.foundM3u8 || !st.found.foundVtt) && cfg.maxRetries >= st.attempt
  }

  /** The `while` loop: attempt `a` scans snapshot `snaps[a]`. */
  function Poll(st: Capture, snaps: seq<Log>, cfg: Config, isTarget: string -> bool): Capture
    requires |snaps| > cfg.maxRetries
    decreases cfg.maxRetries + 1 - st.attempt
  {
    if !Searching(st, cfg) then st
    else Poll(EndAttempt(ScanLog(st, snaps[st.attempt], cfg, isTarget)), snaps, cfg, isTarget)
  }

  /** One iteration of the loop: scan the attempt's log, then end the attempt. */
  lemma PollStep(st: Capture, snaps: seq<Log>, cfg: Config, isTarget: string -> bool)
    requires |snaps| > cfg.maxRetries && Searching(st, cfg)
    ensures st.attempt < |snaps|
    ensures Poll(st, snaps, cfg, isTarget) == Poll(EndAttempt(ScanLog(st, snaps[st.attempt], cfg, isTarget)), snaps, cfg, isTarget)
  {
  }

  /**
   * What `capture_media_requests` ends in. `Found` carries the returned dict and the
   * value of `args.subtitles` afterwards; the two error outcomes are the prompt
   * running out of answers and the `IndexError` raised at hianime.py:769.
   */
  datatype Outcome = NoStream | Found(urls: Urls, subtitles: bool) | SelectionOutOfInput | SubtitleIndexError(selection: int)

  /**
   * The post-loop resolution. `skipSubtitles` is the user's answer to "skip the
   * collection of subtitles?"; `answers` is the script for the subtitle choice.
   */
  function Resolve(p: Progress, cfg: Config, skipSubtitles: bool, answers: seq<string>): Outcome
  {
    if !p.foundM3u8 then NoStream
    else if !p.foundVtt then Found(p.urls, !skipSubtitles)
    else if cfg.subtitles then
      var all := p.urls.allVtt;
      if |all| == 1 then Found(p.urls.(vtt := Some(all[0])), true)
      else
        match GetIntInRange(answers, 1, Finite(|all| + 1), None)
        case OutOfInput => SelectionOutOfInput
        case Answer(k, _) =>
          if k - 1 < |all| then Found(p.urls.(vtt := Some(all[k - 1])), true) else SubtitleIndexError(k)
    else Found(p.urls, false)
  }

  /** `capture_media_requests` as a whole. */
  function Discover(cfg: Config, snaps: seq<Log>, isTarget: string -> bool, skipSubtitles: bool, answers: seq<string>): Outcome
    requires |snaps| > cfg.maxRetries
  {
    Resolve(Poll(Initial(cfg), snaps, cfg, isTarget).found, cfg, skipSubtitles, answers)
  }

  // ---------------------------------------------------------------------------
  // The state invariant and its preservation.

  /**
   * What holds of the findings at every request boundary: the manifest and
   * its headers come together and the manifest qualifies; the candidates are
   * distinct qualifying subtitle URLs; the subtitle side is satisfied only once
   * the repeat counter has reached the number of candidates.
   */
  predicate Inv(p: Progress, cfg: Config, isTarget: string -> bool)
  {
    && (p.foundM3u8 <==> p.urls.m3u8.Some?)
    && (p.urls.m3u8.Some? <==> p.urls.headers.Some?)
    && (p.urls.m3u8.Some? ==> IsManifest(p.urls.m3u8.value, cfg))
    && p.urls.vtt.None?
    && Distinct(p.urls.allVtt)
    && (forall i :: 0 <= i < |p.urls.allVtt| ==> IsSubtitle(p.urls.allVtt[i], cfg, isTarget))
    && (!cfg.subtitles ==> p.foundVtt && p.urls.allVtt == [] && p.previouslyFoundVtt == 0)
    && (cfg.subtitles && p.foundVtt ==> 0 < |p.urls.allVtt| <= p.previouslyFoundVtt)
    && (!p.foundVtt ==> p.previouslyFoundVtt == 0 || p.previouslyFoundVtt < |p.urls.allVtt|)
  }

  lemma InitialInv(cfg: Config, isTarget: string -> bool)
    ensures Inv(Initial(cfg).found, cfg, isTarget)
  {
  }

  /** How the findings may change from `p` to `p'`: a manifest is never replaced, candidates are only appended. */
  predicate Grows(p: Progress, p': Progress)
  {
    && (p.foundM3u8 ==> p'.urls.m3u8 == p.urls.m3u8 && p'.urls.headers == p.urls.headers)
    && (p.foundVtt ==> p'.foundVtt && p'.urls.allVtt == p.urls.allVtt)
    && p.urls.allVtt <= p'.urls.allVtt
  }

  /** One answered request keeps the invariant and only lets the findings grow. */
  lemma SightKeeps(p: Progress, uri: string, headers: Headers, cfg: Config, isTarget: string -> bool)
    requires Inv(p, cfg, isTarget)
    ensures Inv(Sight(p, uri, headers, cfg, isTarget), cfg, isTarget)
    ensures Grows(p, Sight(p, uri, headers, cfg, isTarget))
  {
    if !(!p.foundM3u8 && IsManifest(uri, cfg)) && !p.foundVtt && IsSubtitle(uri, cfg, isTarget) && uri !in p.urls.allVtt {
      var all' := p.urls.allVtt + [uri];
      assert forall i :: 0 <= i < |p.urls.allVtt| ==> all'[i] == p.urls.allVtt[i];
    }
  }

  lemma {:induction false} ScanLogKeeps(st: Capture, log: Log, cfg: Config, isTarget: string -> bool)
    requires Inv(st.found, cfg, isTarget)
    ensures Inv(ScanLog(st, log, cfg, isTarget).found, cfg, isTarget)
    ensures Grows(st.found, ScanLog(st, log, cfg, isTarget).found)
    decreases |log|
  {
    if log != [] {
      var mid := ScanLog(st, log[..|log| - 1], cfg, isTarget);
      ScanLogKeeps(st, log[..|log| - 1], cfg, isTarget);
      var req := log[|log| - 1];
      if req.hasResponse {
        SightKeeps(mid.found, Lower(req.url), req.headers, cfg, isTarget);
      }
    }
  }

  /**
   * The loop keeps the invariant and ends when it should: searching stops,
   * at most `max_retries + 1` attempts are made in all, and a manifest once
   * found is never replaced.
   */
  lemma {:induction false} PollKeeps(st: Capture, snaps: seq<Log>, cfg: Config, isTarget: string -> bool)
    requires |snaps| > cfg.maxRetries
    requires Inv(st.found, cfg, isTarget)
    ensures var fin := Poll(st, snaps, cfg, isTarget);
      && Inv(fin.found, cfg, isTarget)
      && Grows(st.found, fin.found)
      && !Searching(fin, cfg)
      && st.attempt <= fin.attempt
      && (Searching(st, cfg) ==> fin.attempt <= cfg.maxRetries + 1)
      && (!Searching(st, cfg) ==> fin == st)
    decreases cfg.maxRetries + 1 - st.attempt
  {
    if Searching(st, cfg) {
      var scanned := ScanLog(st, snaps[st.attempt], cfg, isTarget);
      ScanLogKeeps(st, snaps[st.attempt], cfg, isTarget);
      PollKeeps(EndAttempt(scanned), snaps, cfg, isTarget);
    }
  }

  /** The browser actions of the attempts numbered `lo + 1` to `hi`, in order. */
  function Schedule(lo: nat, hi: nat): seq<Effect>
    decreases hi
  {
    if hi <= lo then [] else Schedule(lo, hi - 1) + Triggers(hi)
  }

  lemma {:induction false} ScheduleSplit(lo: nat, mid: nat, hi: nat)
    requires lo <= mid <= hi
    ensures Schedule(lo, mid) + Schedule(mid, hi) == Schedule(lo, hi)
    decreases hi
  {
    if hi > mid {
      ScheduleSplit(lo, mid, hi - 1);
      assert Schedule(mid, hi) == Schedule(mid, hi - 1) + Triggers(hi);
      assert Schedule(lo, hi) == Schedule(lo, hi - 1) + Triggers(hi);
    }
  }

  /** Each attempt adds exactly one to `attempt`, and the trace is the scheduled actions of the attempts made. */
  lemma {:induction false} PollTrace(st: Capture, snaps: seq<Log>, cfg: Config, isTarget: string -> bool)
    requires |snaps| > cfg.maxRetries
    ensures var fin := Poll(st, snaps, cfg, isTarget);
      st.attempt <= fin.attempt && fin.effects == st.effects + Schedule(st.attempt, fin.attempt)
    decreases cfg.maxRetries + 1 - st.attempt
  {
    if Searching(st, cfg) {
      var next := EndAttempt(ScanLog(st, snaps[st.attempt], cfg, isTarget));
      assert next.effects == st.effects + Schedule(st.attempt, next.attempt);
      PollTrace(next, snaps, cfg, isTarget);
      var fin := Poll(next, snaps, cfg, isTarget);
      ScheduleSplit(st.attempt, next.attempt, fin.attempt);
    }
  }

  lemma TriggersOf(a: nat)
    ensures forall e :: e in Triggers(a) ==> e.attempt == a
    ensures forall e :: e in Triggers(a) && e.PageRefresh? ==> a in DownloadRefresh
    ensures forall e :: e in Triggers(a) && e.ServerReclick? ==> a in ServerRefresh
    ensures a in DownloadRefresh ==> PageRefresh(a) in Triggers(a)
    ensures a in ServerRefresh ==> ServerReclick(a) in Triggers(a)
  {
  }

  /**
   * Page refresh happens only after attempts 15, 30 and 45 and server re-click
   * only after 7, 22, 37 and 52, each for an attempt that was made.
   */
  lemma {:induction false} ScheduleSound(lo: nat, hi: nat)
    ensures forall e :: e in Schedule(lo, hi) ==> lo < e.attempt <= hi
    ensures forall e :: e in Schedule(lo, hi) && e.PageRefresh? ==> e.attempt in DownloadRefresh
    ensures forall e :: e in Schedule(lo, hi) && e.ServerReclick? ==> e.attempt in ServerRefresh
    decreases hi
  {
    if hi > lo {
      ScheduleSound(lo, hi - 1);
      TriggersOf(hi);
      assert Schedule(lo, hi) == Schedule(lo, hi - 1) + Triggers(hi);
    }
  }

  /** The actions triggered by an attempt that was made are part of the schedule. */
  lemma {:induction false} ScheduleIncludes(lo: nat, hi: nat, a: nat)
    requires lo < a <= hi
    ensures forall e :: e in Triggers(a) ==> e in Schedule(lo, hi)
    decreases hi
  {
    assert Schedule(lo, hi) == Schedule(lo, hi - 1) + Triggers(hi);
    if a < hi {
      ScheduleIncludes(lo, hi - 1, a);
    }
  }

  /** Conversely, each scheduled attempt that was made triggers its action. */
  lemma ScheduleComplete(lo: nat, hi: nat)
    ensures forall a :: lo < a <= hi && a in DownloadRefresh ==> PageRefresh(a) in Schedule(lo, hi)
    ensures forall a :: lo < a <= hi && a in ServerRefresh ==> ServerReclick(a) in Schedule(lo, hi)
  {
    forall a | lo < a <= hi
      ensures a in DownloadRefresh ==> PageRefresh(a) in Schedule(lo, hi)
      ensures a in ServerRefresh ==> ServerReclick(a) in Schedule(lo, hi)
    {
      ScheduleIncludes(lo, hi, a);
      TriggersOf(a);
    }
  }

  // ---------------------------------------------------------------------------
  // Where the manifest comes from.

  /** `u` is the lower-cased URL of a request with a response in some snapshot, and `h` its headers. */
  ghost predicate SeenIn(u: string, h: Headers, snaps: seq<Log>)
  {
    exists i, j :: 0 <= i < |snaps| && 0 <= j < |snaps[i]|
      && snaps[i][j].hasResponse && Lower(snaps[i][j].url) == u && snaps[i][j].headers == h
  }

  /** The manifest and headers after a scan were there before, or come from one request of the log. */
  lemma {:induction false} ScanLogManifestSource(st: Capture, log: Log, cfg: Config, isTarget: string -> bool)
    ensures var u := ScanLog(st, log, cfg, isTarget).found.urls;
      u.m3u8.Some? && u.headers.Some? ==>
        (u.m3u8 == st.found.urls.m3u8 && u.headers == st.found.urls.headers)
        || exists j :: 0 <= j < |log| && log[j].hasResponse
             && Some(Lower(log[j].url)) == u.m3u8 && Some(log[j].headers) == u.headers
    decreases |log|
  {
    if log != [] {
      var prefix := log[..|log| - 1];
      ScanLogManifestSource(st, prefix, cfg, isTarget);
      var mid := ScanLog(st, prefix, cfg, isTarget).found.urls;
      var u := ScanLog(st, log, cfg, isTarget).found.urls;
      if u.m3u8.Some? && u.headers.Some? && (u.m3u8 != mid.m3u8 || u.headers != mid.headers) {
        assert log[|log| - 1].hasResponse;
      } else if u.m3u8.Some? && u.headers.Some? && !(u.m3u8 == st.found.urls.m3u8 && u.headers == st.found.urls.headers) {
        var j :| 0 <= j < |prefix| && prefix[j].hasResponse
             && Some(Lower(prefix[j].url)) == mid.m3u8 && Some(prefix[j].headers) == mid.headers;
        assert log[j] == prefix[j];
      }
    }
  }

  /** The manifest and the headers the loop ends with come from one and the same logged request. */
  lemma {:induction false} PollManifestSource(st: Capture, snaps: seq<Log>, cfg: Config, isTarget: string -> bool)
    requires |snaps| > cfg.maxRetries
    requires var u := st.found.urls; u.m3u8.Some? && u.headers.Some? ==> SeenIn(u.m3u8.value, u.headers.value, snaps)
    ensures var u := Poll(st, snaps, cfg, isTarget).found.urls;
      u.m3u8.Some? && u.headers.Some? ==> SeenIn(u.m3u8.value, u.headers.value, snaps)
    decreases cfg.maxRetries + 1 - st.attempt
  {
    if Searching(st, cfg) {
      var a := st.attempt;
      var scanned := ScanLog(st, snaps[a], cfg, isTarget);
      ScanLogManifestSource(st, snaps[a], cfg, isTarget);
      var u := scanned.found.urls;
      if u.m3u8.Some? && u.headers.Some? && !(u.m3u8 == st.found.urls.m3u8 && u.headers == st.found.urls.headers) {
        var j :| 0 <= j < |snaps[a]| && snaps[a][j].hasResponse
             && Some(Lower(snaps[a][j].url)) == u.m3u8 && Some(snaps[a][j].headers) == u.headers;
        assert SeenIn(u.m3u8.value, u.headers.value, snaps);
      }
      PollManifestSource(EndAttempt(scanned), snaps, cfg, isTarget);
    }
  }

  /**
   * With subtitles off the subtitle side is satisfied from the start, so the
   * loop ends with the attempt whose scan finds the manifest.
   */
  lemma SubtitlesOffStopsAtManifest(st: Capture, snaps: seq<Log>, cfg: Config, isTarget: string -> bool)
    requires |snaps| > cfg.maxRetries && Inv(st.found, cfg, isTarget) && !cfg.subtitles && Searching(st, cfg)
    requires ScanLog(st, snaps[st.attempt], cfg, isTarget).found.foundM3u8
    ensures Poll(st, snaps, cfg, isTarget) == EndAttempt(ScanLog(st, snaps[st.attempt], cfg, isTarget))
  {
    ScanLogKeeps(st, snaps[st.attempt], cfg, isTarget);
  }

  // ---------------------------------------------------------------------------
  // The subtitle stabilisation heuristic.

  /**
   * With a single candidate, its second sighting ends the subtitle search: the
   * repeat counter reaches 1, the number of candidates.
   */
  lemma SecondSightingEndsSearch(p: Progress, uri: string, headers: Headers, cfg: Config, isTarget: string -> bool)
    requires Inv(p, cfg, isTarget) && !p.foundVtt
    requires |p.urls.allVtt| == 1 && uri == p.urls.allVtt[0]
    requires p.foundM3u8 || !IsManifest(uri, cfg)
    ensures Sight(p, uri, headers, cfg, isTarget).foundVtt
  {
  }

  /** The qualifying subtitle URLs sighted in a log. */
  function Sighted(log: Log, cfg: Config, isTarget: string -> bool): set<string>
    decreases |log|
  {
    if log == [] then {}
    else
      var last := log[|log| - 1];
      Sighted(log[..|log| - 1], cfg, isTarget)
      + (if last.hasResponse && IsSubtitle(Lower(last.url), cfg, isTarget) then {Lower(last.url)} else {})
  }

  lemma {:induction false} DistinctCard(s: seq<string>)
    requires Distinct(s)
    ensures |set x | x in s| == |s|
  {
    if s != [] {
      var t := s[..|s| - 1];
      assert Distinct(t);
      DistinctCard(t);
      assert (set x | x in s) == (set x | x in t) + {s[|s| - 1]};
      assert s[|s| - 1] !in (set x | x in t);
    }
  }

  lemma SubsetCard(a: set<string>, b: set<string>)
    requires a <= b
    ensures |a| <= |b|
  {
    assert b == a + (b - a);
  }

  /**
   * Every qualifying subtitle URL in `log` is one of the known candidates, and
   * none of them would be taken as the manifest first.
   */
  predicate OnlyKnown(log: Log, p: Progress, cfg: Config, isTarget: string -> bool)
  {
    forall j :: 0 <= j < |log| && log[j].hasResponse && IsSubtitle(Lower(log[j].url), cfg, isTarget)
      ==> Lower(log[j].url) in p.urls.allVtt && (p.foundM3u8 || !IsManifest(Lower(log[j].url), cfg))
  }

  /**
   * While no new candidate turns up, every sighting of a known candidate raises
   * the repeat counter, so the counter grows at least by the number of
   * distinct candidates sighted.
   */
  lemma {:induction false} RescanCounts(st: Capture, log: Log, cfg: Config, isTarget: string -> bool)
    requires Inv(st.found, cfg, isTarget) && !st.found.foundVtt
    requires OnlyKnown(log, st.found, cfg, isTarget)
    ensures var p' := ScanLog(st, log, cfg, isTarget).found;
      p'.foundVtt
      || (p'.urls.allVtt == st.found.urls.allVtt
          && p'.previouslyFoundVtt >= st.found.previouslyFoundVtt + |Sighted(log, cfg, isTarget)|)
    decreases |log|
  {
    if log != [] {
      var prefix := log[..|log| - 1];
      var last := log[|log| - 1];
      assert OnlyKnown(prefix, st.found, cfg, isTarget) by {
        forall j | 0 <= j < |prefix| ensures prefix[j] == log[j] { }
      }
      RescanCounts(st, prefix, cfg, isTarget);
      var mid := ScanLog(st, prefix, cfg, isTarget).found;
      ScanLogKeeps(st, prefix, cfg, isTarget);
      if !mid.foundVtt {
        var uri := Lower(last.url);
        var sub := last.hasResponse && IsSubtitle(uri, cfg, isTarget);
        var before := Sighted(prefix, cfg, isTarget);
        assert Sighted(log, cfg, isTarget) == before + (if sub then {uri} else {});
        if sub {
          assert uri in st.found.urls.allVtt && (st.found.foundM3u8 || !IsManifest(uri, cfg));
          assert |before + {uri}| <= |before| + 1;
        }
      }
    }
  }

  /**
   * The stabilisation heuristic: once a log shows every known candidate again
   * and no new one (the log is cumulative, so this is the next attempt after
   * candidates stop arriving), the subtitle search is over after that scan.
   */
  lemma RescanEndsSearch(st: Capture, log: Log, cfg: Config, isTarget: string -> bool)
    requires Inv(st.found, cfg, isTarget) && !st.found.foundVtt && |st.found.urls.allVtt| > 0
    requires OnlyKnown(log, st.found, cfg, isTarget)
    requires forall u :: u in st.found.urls.allVtt ==> u in Sighted(log, cfg, isTarget)
    ensures ScanLog(st, log, cfg, isTarget).found.foundVtt
  {
    RescanCounts(st, log, cfg, isTarget);
    ScanLogKeeps(st, log, cfg, isTarget);
    if !ScanLog(st, log, cfg, isTarget).found.foundVtt {
      DistinctCard(st.found.urls.allVtt);
      SubsetCard((set x | x in st.found.urls.allVtt), Sighted(log, cfg, isTarget));
    }
  }

  // ---------------------------------------------------------------------------
  // The post-loop resolution.

  /**
   * What the resolution returns from findings that satisfy the invariant: a
   * result exactly when a manifest was found, the manifest and candidates as
   * found, and a chosen subtitle (when there is one) among the candidates.
   */
  lemma ResolveResult(p: Progress, cfg: Config, isTarget: string -> bool, skipSubtitles: bool, answers: seq<string>)
    requires Inv(p, cfg, isTarget)
    ensures var r := Resolve(p, cfg, skipSubtitles, answers);
      && (r == NoStream <==> !p.foundM3u8)
      && (r.Found? ==>
           && r.urls.m3u8 == p.urls.m3u8 && r.urls.headers == p.urls.headers && r.urls.allVtt == p.urls.allVtt
           && (r.urls.vtt.Some? ==> r.urls.vtt.value in r.urls.allVtt))
  {
  }

  /**
   * What `capture_media_requests` returns: nothing without a manifest;
   * otherwise an unclaimed manifest with the headers of the very request it
   * came from, candidates that are distinct qualifying subtitle URLs, and a
   * chosen subtitle (when there is one) among them; at most `max_retries + 1`
   * attempts are made.
   */
  lemma DiscoverResult(cfg: Config, snaps: seq<Log>, isTarget: string -> bool, skipSubtitles: bool, answers: seq<string>)
    requires |snaps| > cfg.maxRetries
    ensures var fin := Poll(Initial(cfg), snaps, cfg, isTarget);
      var r := Discover(cfg, snaps, isTarget, skipSubtitles, answers);
      && (r == NoStream <==> !fin.found.foundM3u8)
      && fin.attempt <= (if cfg.maxRetries >= 0 then cfg.maxRetries + 1 else 0)
      && (r.Found? ==>
           && r.urls.m3u8.Some? && r.urls.headers.Some?
           && IsManifest(r.urls.m3u8.value, cfg)
           && SeenIn(r.urls.m3u8.value, r.urls.headers.value, snaps)
           && Distinct(r.urls.allVtt)
           && (forall i :: 0 <= i < |r.urls.allVtt| ==> IsSubtitle(r.urls.allVtt[i], cfg, isTarget))
           && (r.urls.vtt.Some? ==> r.urls.vtt.value in r.urls.allVtt))
  {
    var fin := Poll(Initial(cfg), snaps, cfg, isTarget);
    InitialInv(cfg, isTarget);
    PollKeeps(Initial(cfg), snaps, cfg, isTarget);
    PollManifestSource(Initial(cfg), snaps, cfg, isTarget);
    ResolveResult(fin.found, cfg, isTarget, skipSubtitles, answers);
  }

  /**
   * With subtitles requested and exactly one candidate, that candidate is the
   * subtitle, whatever the answers (no prompt is shown).
   */
  lemma SingleCandidateNoPrompt(p: Progress, cfg: Config, skipSubtitles: bool, answers: seq<string>)
    requires cfg.subtitles && p.foundM3u8 && p.foundVtt && |p.urls.allVtt| == 1
    ensures Resolve(p, cfg, skipSubtitles, answers) == Found(p.urls.(vtt := Some(p.urls.allVtt[0])), true)
  {
  }

  /** With subtitles not requested the result never has a `vtt` key. */
  lemma NoSubtitlesNoVtt(p: Progress, cfg: Config, isTarget: string -> bool, skipSubtitles: bool, answers: seq<string>)
    requires Inv(p, cfg, isTarget) && !cfg.subtitles
    ensures var r := Resolve(p, cfg, skipSubtitles, answers);
      r == NoStream || (r.Found? && r.urls.vtt.None? && !r.subtitles)
  {
  }

  /**
   * With subtitles requested but the search unsatisfied, declining to skip
   * subtitles leaves `args.subtitles` on while the result has no `vtt` key.
   */
  lemma DeclineLeavesNoVtt(p: Progress, cfg: Config, isTarget: string -> bool, answers: seq<string>)
    requires Inv(p, cfg, isTarget) && p.foundM3u8 && !p.foundVtt
    ensures var r := Resolve(p, cfg, false, answers);
      r.Found? && r.subtitles && r.urls.vtt.None?
  {
  }

  /**
   * The subtitle prompt accepts `len(all-vtt) + 1` (for two candidates, the
   * answer "3"), and choosing it indexes past the end of the candidate list.
   */
  lemma ChoicePastEnd(p: Progress, cfg: Config, skipSubtitles: bool, answers: seq<string>)
    requires cfg.subtitles && p.foundM3u8 && p.foundVtt && |p.urls.allVtt| >= 2
    requires |answers| > 0 && Read(answers[0]) == Int(|p.urls.allVtt| + 1)
    ensures Resolve(p, cfg, skipSubtitles, answers) == SubtitleIndexError(|p.urls.allVtt| + 1)
  {
    assert IntPrompt(answers, Read, 1, Finite(|p.urls.allVtt| + 1), None) == Answer(|p.urls.allVtt| + 1, 1);
  }
}
