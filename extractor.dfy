/**
 * The state the extractor object keeps between episodes, and the methods of
 * extractors/hianime.py that update it in place: the stream-discovery loop,
 * the recording of claimed URLs, the yt-dlp progress hook and one pass of the
 * wait-for-downloads loop.
 */
module Extractor {
  import opened Basics
  import opened Text
  import opened Prompts
  import opened Discovery

  /** A `download_progress` entry: `{"eta": ...}` while downloading, `{"done": True}` once finished. */
  datatype ProgressEntry = Downloading(eta: Option<nat>) | Done

  /** A download thread, as seen at one moment: its identity and whether it is alive. */
  datatype Worker = Worker(id: nat, alive: bool)

  predicate IsAlive(w: Worker)
  {
    w.alive
  }

  /** The ETA an entry reports, if any (`prog.get("eta")`). */
  function EtaOf(e: ProgressEntry): Option<nat>
  {
    if e.Downloading? then e.eta else None
  }

  class HianimeExtractor {
    /** `args.max_retries`. */
    const maxRetries: int
    /** `args.subtitles`, which the discovery prompt may switch. */
    var subtitles: bool
    /** Manifest URLs already claimed by earlier episodes of this run. */
    var capturedVideoUrls: seq<string>
    /** Subtitle URLs already claimed by earlier episodes of this run. */
    var capturedSubtitleUrls: seq<string>
    /** `download_progress`: episode name to its latest progress report. */
    var downloadProgress: map<string, ProgressEntry>

    constructor (maxRetries: int, subtitles: bool)
      ensures this.maxRetries == maxRetries && this.subtitles == subtitles
      ensures capturedVideoUrls == [] && capturedSubtitleUrls == [] && downloadProgress == map[]
    {
      this.maxRetries := maxRetries;
      this.subtitles := subtitles;
      capturedVideoUrls := [];
      capturedSubtitleUrls := [];
      downloadProgress := map[];
    }

    /** What the discovery loop reads from the object. */
    function Settings(): Config
      reads this
    {
      Config(maxRetries, subtitles, capturedVideoUrls, capturedSubtitleUrls)
    }

    /**
     * The `for request in self.driver.requests` scan of one attempt, from the
     * loop state `start`: what it ends with is what `ScanLog` ends with.
     */
    method ScanRequests(start: Capture, requests: Log, isTarget: string -> bool) returns (st: Capture)
      ensures st == ScanLog(start, requests, Settings(), isTarget)
    {
      var cfg := Settings();
      var foundM3u8 := start.found.foundM3u8;
      var foundVtt := start.found.foundVtt;
      var urls := start.found.urls;
      var previouslyFoundVtt: nat := start.found.previouslyFoundVtt;
      var allUrls := start.allUrls;
      for j := 0 to |requests|
        invariant Capture(Progress(foundM3u8, foundVtt, urls, previouslyFoundVtt), start.attempt, allUrls, start.effects)
               == ScanLog(start, requests[..j], cfg, isTarget)
      {
        assert requests[..j + 1][..j] == requests[..j];
        var request := requests[j];
        if !request.hasResponse {
          continue;
        }
        var uri := Lower(request.url);
        if uri !in allUrls {
          allUrls := allUrls + [uri];
        }
        if !foundM3u8 && IsManifest(uri, cfg) {
          urls := urls.(m3u8 := Some(uri), headers := Some(request.headers));
          foundM3u8 := true;
          continue;
        }
        if !foundVtt && IsSubtitle(uri, cfg, isTarget) {
          if uri in urls.allVtt {
            previouslyFoundVtt := previouslyFoundVtt + 1;
            if previouslyFoundVtt >= |urls.allVtt| {
              foundVtt := true;
            }
            continue;
          }
          urls := urls.(allVtt := urls.allVtt + [uri]);
        }
      }
      assert requests[..|requests|] == requests;
      st := Capture(Progress(foundM3u8, foundVtt, urls, previouslyFoundVtt), start.attempt, allUrls, start.effects);
    }

    /**
     * The `while` loop of `capture_media_requests`: attempt `a` scans the
     * request log `snaps[a]`; `effects` are the server re-clicks and page
     * refreshes it triggers. What it ends with is what the state machine
     * `Poll` ends with.
     */
    method PollMediaRequests(snaps: seq<Log>, isTarget: string -> bool) returns (found: Progress, effects: seq<Effect>)
      requires |snaps| > maxRetries
      ensures found == Poll(Initial(Settings()), snaps, Settings(), isTarget).found
      ensures effects == Poll(Initial(Settings()), snaps, Settings(), isTarget).effects
    {
      ghost var cfg := Settings();
      var foundM3u8 := false;
      var foundVtt := !subtitles;
      var attempt: nat := 0;
      var urls := Urls(None, None, [], None);
      var previouslyFoundVtt: nat := 0;
      var allUrls: seq<string> := [];
      effects := [];
      while (!foundM3u8 || !foundVtt) && maxRetries >= attempt
        invariant Poll(Capture(Progress(foundM3u8, foundVtt, urls, previouslyFoundVtt), attempt, allUrls, effects), snaps, cfg, isTarget)
               == Poll(Initial(cfg), snaps, cfg, isTarget)
        decreases maxRetries + 1 - attempt
      {
        PollStep(Capture(Progress(foundM3u8, foundVtt, urls, previouslyFoundVtt), attempt, allUrls, effects), snaps, cfg, isTarget);
        var scanned := ScanRequests(Capture(Progress(foundM3u8, foundVtt, urls, previouslyFoundVtt), attempt, allUrls, effects), snaps[attempt], isTarget);
        foundM3u8, foundVtt, urls, previouslyFoundVtt := scanned.found.foundM3u8, scanned.found.foundVtt, scanned.found.urls, scanned.found.previouslyFoundVtt;
        allUrls := scanned.allUrls;
        attempt := attempt + 1;
        if attempt in ServerRefresh {
          effects := effects + [ServerReclick(attempt)];
        }
        if attempt in DownloadRefresh {
          effects := effects + [PageRefresh(attempt)];
        }
        assert effects == scanned.effects + Triggers(attempt);
      }
      found := Progress(foundM3u8, foundVtt, urls, previouslyFoundVtt);
    }

    /**
     * `capture_media_requests`: the poll, then the resolution of what it
     * found. The result is that of the state machine `Discover`, and
     * `args.subtitles` changes only through the "skip subtitles?" prompt.
     */
    method CaptureMediaRequests(snaps: seq<Log>, isTarget: string -> bool, skipSubtitles: bool, answers: seq<string>)
      returns (result: Outcome, effects: seq<Effect>)
      requires |snaps| > maxRetries
      modifies this`subtitles
      ensures result == Discover(old(Settings()), snaps, isTarget, skipSubtitles, answers)
      ensures effects == Poll(Initial(old(Settings())), snaps, old(Settings()), isTarget).effects
      ensures subtitles == if result.Found? then result.subtitles else old(subtitles)
    {
      var found;
      found, effects := PollMediaRequests(snaps, isTarget);
      var urls := found.urls;
      if !found.foundM3u8 {
        return NoStream, effects;
      }
      if !found.foundVtt {
        subtitles := !skipSubtitles;
      } else if subtitles {
        if |urls.allVtt| == 1 {
          urls := urls.(vtt := Some(urls.allVtt[0]));
          return Found(urls, subtitles), effects;
        }
        var selection := GetIntInRange(answers, 1, Finite(|urls.allVtt| + 1), None);
        if selection.OutOfInput? {
          return SelectionOutOfInput, effects;
        }
        if selection.value - 1 >= |urls.allVtt| {
          return SubtitleIndexError(selection.value), effects;
        }
        urls := urls.(vtt := Some(urls.allVtt[selection.value - 1]));
      }
      result := Found(urls, subtitles);
    }

    /**
     * What `run` does with a capture (hianime.py:285-288): claim the manifest,
     * and with subtitles on claim the subtitle too. `ok` is false where a key
     * is missing and Python raises `KeyError`; the manifest appended before
     * that stays appended.
     */
    method RecordCapture(urls: Urls) returns (ok: bool)
      modifies this`capturedVideoUrls, this`capturedSubtitleUrls
      ensures ok <==> urls.m3u8.Some? && (!subtitles || urls.vtt.Some?)
      ensures capturedVideoUrls == if urls.m3u8.Some? then old(capturedVideoUrls) + [urls.m3u8.value] else old(capturedVideoUrls)
      ensures capturedSubtitleUrls == if ok && subtitles then old(capturedSubtitleUrls) + [urls.vtt.value] else old(capturedSubtitleUrls)
    {
      if urls.m3u8.None? {
        return false;
      }
      capturedVideoUrls := capturedVideoUrls + [urls.m3u8.value];
      if subtitles {
        if urls.vtt.None? {
          return false;
        }
        capturedSubtitleUrls := capturedSubtitleUrls + [urls.vtt.value];
      }
      ok := true;
    }

    /**
     * The yt-dlp progress hook of a download started with `episode_name`: it
     * writes that one entry on "downloading" and "finished" and ignores any
     * other status.
     */
    method ProgressHook(episodeName: string, status: string, eta: Option<nat>)
      modifies this`downloadProgress
      ensures status == "downloading" ==> downloadProgress == old(downloadProgress)[episodeName := Downloading(eta)]
      ensures status == "finished" ==> downloadProgress == old(downloadProgress)[episodeName := Done]
      ensures status != "downloading" && status != "finished" ==> downloadProgress == old(downloadProgress)
    {
      if status == "downloading" {
        downloadProgress := downloadProgress[episodeName := Downloading(eta)];
      } else if status == "finished" {
        downloadProgress := downloadProgress[episodeName := Done];
      }
    }

    /** The largest ETA any entry of `download_progress` reports, 0 if none does. */
    method MaxEta() returns (maxEta: nat)
      ensures forall k :: k in downloadProgress && EtaOf(downloadProgress[k]).Some? ==> EtaOf(downloadProgress[k]).value <= maxEta
      ensures maxEta == 0 || exists k :: k in downloadProgress && EtaOf(downloadProgress[k]) == Some(maxEta)
    {
      maxEta := 0;
      var pending := downloadProgress.Keys;
      while pending != {}
        invariant pending <= downloadProgress.Keys
        invariant forall k :: k in downloadProgress && k !in pending && EtaOf(downloadProgress[k]).Some?
                    ==> EtaOf(downloadProgress[k]).value <= maxEta
        invariant maxEta == 0 || exists k :: k in downloadProgress && EtaOf(downloadProgress[k]) == Some(maxEta)
        decreases |pending|
      {
        var name :| name in pending;
        var eta := EtaOf(downloadProgress[name]);
        if eta.Some? && eta.value > maxEta {
          maxEta := eta.value;
        }
        pending := pending - {name};
      }
    }

    /**
     * One pass of the wait-for-downloads loop (hianime.py:306-320, repeated at
     * 378-392): the largest reported ETA split into minutes and seconds, and
     * the thread list with the finished threads removed.
     */
    method ReportProgress(threads: seq<Worker>) returns (remaining: seq<Worker>, maxEta: nat, etaMin: nat, etaSec: nat)
      ensures forall k :: k in downloadProgress && EtaOf(downloadProgress[k]).Some? ==> EtaOf(downloadProgress[k]).value <= maxEta
      ensures maxEta == 0 || exists k :: k in downloadProgress && EtaOf(downloadProgress[k]) == Some(maxEta)
      ensures etaMin * 60 + etaSec == maxEta && etaSec < 60
      ensures remaining == Keep(threads, IsAlive)
    {
      maxEta := MaxEta();
      remaining := PruneFinished(threads);
      etaMin := maxEta / 60;
      etaSec := maxEta % 60;
    }
  }

  /**
   * `for t in threads[:]: if not t.is_alive(): threads.remove(t)`: the
   * threads still alive, in their original order.
   */
  method PruneFinished(threads: seq<Worker>) returns (remaining: seq<Worker>)
    ensures remaining == Keep(threads, IsAlive)
  {
    remaining := threads;
    var snapshot := threads;
    for i := 0 to |snapshot|
      invariant remaining == Keep(snapshot[..i], IsAlive) + snapshot[i..]
    {
      var t := snapshot[i];
      PruneStep(snapshot, i, remaining);
      if !t.alive {
        remaining := RemoveFirst(remaining, t);
      }
    }
    assert snapshot[..|snapshot|] == snapshot;
  }

  /** One iteration of `PruneFinished`: removing a dead thread keeps the survivors before it. */
  lemma PruneStep(snapshot: seq<Worker>, i: nat, remaining: seq<Worker>)
    requires i < |snapshot| && remaining == Keep(snapshot[..i], IsAlive) + snapshot[i..]
    ensures !snapshot[i].alive ==>
              snapshot[i] in remaining
              && RemoveFirst(remaining, snapshot[i]) == Keep(snapshot[..i + 1], IsAlive) + snapshot[i + 1..]
    ensures snapshot[i].alive ==> remaining == Keep(snapshot[..i + 1], IsAlive) + snapshot[i + 1..]
  {
    var t := snapshot[i];
    var kept := Keep(snapshot[..i], IsAlive);
    KeepSnoc(snapshot, i, IsAlive);
    assert snapshot[i..] == [t] + snapshot[i + 1..];
    assert remaining == kept + [t] + snapshot[i + 1..];
    if !t.alive {
      KeepRejects(snapshot[..i], IsAlive, t);
      RemoveFirstAfter(kept, t, snapshot[i + 1..]);
    }
  }
}
