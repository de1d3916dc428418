/**
 * What one episode download does: the variant playlist picked from the
 * master manifest (`look_for_variants`), the calls `download_episode` makes to
 * `yt_dlp_download`, the temporary files removed after a cancelled download,
 * and the episode-range filters of `get_episode_urls` and `download_from_json`.
 */
module Downloads {
  import opened Basics
  import opened Text
  import opened Prompts
  import opened Discovery
  import opened Naming

  // ---------------------------------------------------------------- variants

  /** A master-playlist line that names a variant: ends in `.m3u8` once stripped, and is no `iframe` stream. */
  predicate IsVariant(line: string)
  {
    EndsWith(Strip(line), ".m3u8") && !Contains(line, "iframe")
  }

  /** Which lines name a variant, line for line. */
  function VariantFlags(lines: seq<string>): (r: seq<bool>)
    ensures |r| == |lines| && forall i :: 0 <= i < |lines| ==> (r[i] <==> IsVariant(lines[i]))
  {
    seq(|lines|, i requires 0 <= i < |lines| => IsVariant(lines[i]))
  }

  /**
   * `look_for_variants` over the master playlist's lines (`master` is its
   * URL, `join` is `urljoin`): the first variant line, stripped and resolved
   * against the master URL, or `""`.
   */
  function LookForVariants(master: string, lines: seq<string>, join: (string, string) -> string): string
  {
    match FirstIndex(VariantFlags(lines), true)
    case Some(i) => join(master, Strip(lines[i]))
    case None => ""
  }

  /** The result is the first variant line resolved; `""` when no line is one. */
  lemma VariantIsFirstQualifying(master: string, lines: seq<string>, join: (string, string) -> string, i: nat)
    requires i < |lines| && IsVariant(lines[i])
    requires forall j :: 0 <= j < i ==> !IsVariant(lines[j])
    ensures LookForVariants(master, lines, join) == join(master, Strip(lines[i]))
  {
    FirstIndexAt(VariantFlags(lines), true, i);
  }

  lemma NoVariantGivesEmpty(master: string, lines: seq<string>, join: (string, string) -> string)
    requires forall j :: 0 <= j < |lines| ==> !IsVariant(lines[j])
    ensures LookForVariants(master, lines, join) == ""
  {
    assert true !in VariantFlags(lines);
  }

  /** Lines after the first variant (and non-variant lines before it) do not change the choice. */
  lemma VariantIgnoresOtherLines(master: string, before: seq<string>, line: string, after: seq<string>,
                                 join: (string, string) -> string)
    requires IsVariant(line)
    requires forall j :: 0 <= j < |before| ==> !IsVariant(before[j])
    ensures LookForVariants(master, before + [line] + after, join) == join(master, Strip(line))
  {
    var lines := before + [line] + after;
    assert lines[|before|] == line;
    VariantIsFirstQualifying(master, lines, join, |before|);
  }

  // --------------------------------------------------------- one episode

  /** An episode record: the page's `url`, `number`, `title`, and what capture added (a missing key is `None`). */
  datatype Episode = Episode(url: string, number: int, title: string,
                             m3u8: Option<string>, headers: Option<Headers>, vtt: Option<string>)

  /**
   * The skip test `"m3u8" not in episode.keys() and not episode["m3u8"]`:
   * `None` is the `KeyError` its second half raises. It never says skip.
   */
  function SkipTest(e: Episode): (r: Option<bool>)
    ensures r != Some(true)
    ensures r.None? <==> e.m3u8.None?
  {
    if e.m3u8.Some? then Some(false) else None
  }

  /** How a call of `yt_dlp_download` ends: True, False (cancelled by the user), or an exception. */
  datatype Ending = Completed | Cancelled | Crashed

  /** A call of `yt_dlp_download(url, headers, location, episode_name)`, and the SRT conversion. */
  datatype Step =
    | Fetch(url: string, headers: Headers, location: string, progressKey: string)
    | ToSrt(vttPath: string)
    | Remove(path: string)

  /** Where an episode's files go: the folder, the episode name, and an extension. */
  function FilePath(folder: string, name: string, ext: string): string
  {
    folder + name + ext
  }

  /**
   * `download_episode`: the calls it makes, given how each call ends and
   * whether `vtt_to_srt` succeeds (`convertOk`); `lines` is the master
   * playlist. `None` is the `KeyError` of the skip test (no `m3u8` key).
   * A missing `headers` key raises inside the `try` and ends the episode
   * before any call.
   */
  function DownloadEpisode(e: Episode, name: string, folder: string, lines: seq<string>, join: (string, string) -> string,
                           srt: bool, video: Ending, subs: Ending, convertOk: bool): (r: Option<seq<Step>>)
    ensures r.None? <==> e.m3u8.None?
    ensures r.Some? && e.headers.None? ==> r.value == []
    ensures r.Some? && e.headers.Some? ==>
              1 <= |r.value| <= 4
              && r.value[0] == Fetch(LookForVariants(e.m3u8.value, lines, join), e.headers.value, FilePath(folder, name, ".mp4"), name)
    ensures r.Some? && video != Completed ==> |r.value| <= 1
    ensures r.Some? && |r.value| >= 2 ==>
              e.vtt.Some? && e.vtt.value != "" && video == Completed
              && r.value[1] == Fetch(e.vtt.value, e.headers.value, FilePath(folder, name, ".vtt"), "")
    ensures r.Some? && |r.value| >= 3 ==>
              srt && subs != Crashed && r.value[2] == ToSrt(FilePath(folder, name, ".vtt"))
    ensures r.Some? && |r.value| == 4 ==> convertOk && r.value[3] == Remove(FilePath(folder, name, ".vtt"))
    ensures r.Some? && e.headers.Some? && video == Completed && e.vtt.Some? && e.vtt.value != "" ==> |r.value| >= 2
    ensures r.Some? && e.headers.Some? && video == Completed && (e.vtt.None? || e.vtt.value == "") ==> |r.value| == 1
    ensures r.Some? && |r.value| >= 2 && srt && subs != Crashed ==> |r.value| >= 3
    ensures r.Some? && |r.value| >= 3 && convertOk ==> |r.value| == 4
  {
    if SkipTest(e).None? then None
    else if e.headers.None? then Some([])
    else
      var headers := e.headers.value;
      var first := Fetch(LookForVariants(e.m3u8.value, lines, join), headers, FilePath(folder, name, ".mp4"), name);
      if video != Completed then Some([first])
      else if e.vtt.Some? && e.vtt.value != "" then
        var vttPath := FilePath(folder, name, ".vtt");
        var second := Fetch(e.vtt.value, headers, vttPath, "");
        if subs == Crashed || !srt then Some([first, second])
        else if convertOk then Some([first, second, ToSrt(vttPath), Remove(vttPath)])
        else Some([first, second, ToSrt(vttPath)])
      else Some([first])
  }

  /**
   * Progress of an episode is recorded under its name, but its subtitle
   * download passes no name, so every subtitle's progress lands under `""`.
   */
  lemma ProgressKeys(e: Episode, name: string, folder: string, lines: seq<string>, join: (string, string) -> string,
                     srt: bool, video: Ending, subs: Ending, convertOk: bool)
    requires DownloadEpisode(e, name, folder, lines, join, srt, video, subs, convertOk).Some?
    ensures forall k :: 0 <= k < |DownloadEpisode(e, name, folder, lines, join, srt, video, subs, convertOk).value| ==>
              var s := DownloadEpisode(e, name, folder, lines, join, srt, video, subs, convertOk).value[k];
              s.Fetch? ==> s.progressKey == (if k == 0 then name else "")
  {
  }

  // --------------------------------------------------------- cleanup

  /** `location[:-4]`: the location without its four-character extension. */
  function Stem(location: string): string
  {
    if |location| >= 4 then location[..|location| - 4] else ""
  }

  /** `glob(stem + ".*")`: a path of the same directory whose name is the stem, a dot, and anything. */
  predicate GlobMatches(stem: string, f: string)
  {
    StartsWith(f, stem + ".") && '/' !in f[|stem| + 1..]
  }

  /** A leftover of a cancelled download: matched by the glob and not a finished `.mp4` or `.vtt`. */
  predicate IsLeftover(location: string, f: string)
  {
    GlobMatches(Stem(location), f) && !EndsWith(f, ".mp4") && !EndsWith(f, ".vtt")
  }

  function LeftoverTest(location: string): string -> bool
  {
    (f: string) => IsLeftover(location, f)
  }

  /**
   * The files a cancelled `yt_dlp_download` removes, in the order `glob`
   * lists them (`files`): exactly the leftovers of `location`.
   */
  function CleanupTargets(location: string, files: seq<string>): (r: seq<string>)
    ensures forall i :: 0 <= i < |r| ==> r[i] in files && IsLeftover(location, r[i])
    ensures forall i :: 0 <= i < |files| && IsLeftover(location, files[i]) ==> files[i] in r
  {
    Keep(files, LeftoverTest(location))
  }

  /** The finished video and subtitle of an episode are never removed. */
  lemma CleanupSparesResults(folder: string, name: string, files: seq<string>)
    ensures FilePath(folder, name, ".mp4") !in CleanupTargets(FilePath(folder, name, ".mp4"), files)
    ensures FilePath(folder, name, ".vtt") !in CleanupTargets(FilePath(folder, name, ".mp4"), files)
  {
    var v := FilePath(folder, name, ".vtt");
    assert v[|v| - 4..] == ".vtt";
    var m := FilePath(folder, name, ".mp4");
    assert m[|m| - 4..] == ".mp4";
  }

  /** yt-dlp's partial file `<name>.mp4.part` is a leftover of the video. */
  lemma PartFileRemoved(folder: string, name: string, files: seq<string>)
    requires '/' !in name
    requires FilePath(folder, name, ".mp4.part") in files
    ensures FilePath(folder, name, ".mp4.part") in CleanupTargets(FilePath(folder, name, ".mp4"), files)
  {
    var loc := FilePath(folder, name, ".mp4");
    var part := FilePath(folder, name, ".mp4.part");
    assert loc[..|loc| - 4] == folder + name;
    assert part[..|folder + name| + 1] == folder + name + ".";
    assert part[|folder + name| + 1..] == "mp4.part";
    assert part[|part| - 4..] == "part";
    assert IsLeftover(loc, part);
  }

  /**
   * The removal loop: `safe_remove` (5 tries, 2 s apart) on every target, in
   * order; `outcomes(f)` is what the file system does for file `f`. An error
   * other than PermissionError leaves `safe_remove` and the loop, so the
   * targets after it are not tried.
   */
  method RemoveLeftovers(location: string, files: seq<string>, outcomes: string -> nat -> Attempt)
    returns (results: seq<Removal>)
    ensures |results| <= |CleanupTargets(location, files)|
    ensures forall i :: 0 <= i < |results| ==> results[i] == RemovalFrom(outcomes(CleanupTargets(location, files)[i]), 0, 5)
    ensures forall i :: 0 <= i < |results| ==>
              (results[i] == GaveUp <==> forall k :: 0 <= k < 5 ==> outcomes(CleanupTargets(location, files)[i])(k) == Locked)
    ensures forall i :: 0 <= i < |results| - 1 ==> results[i] != Propagated
    ensures |results| < |CleanupTargets(location, files)| ==> results != [] && results[|results| - 1] == Propagated
    ensures (forall i :: 0 <= i < |CleanupTargets(location, files)| ==>
               RemovalFrom(outcomes(CleanupTargets(location, files)[i]), 0, 5) != Propagated)
            ==> |results| == |CleanupTargets(location, files)|
  {
    var targets := CleanupTargets(location, files);
    results := RemoveEach(targets, outcomes);
  }

  /** The `for file in ...: safe_remove(file)` loop over given targets. */
  method RemoveEach(targets: seq<string>, outcomes: string -> nat -> Attempt) returns (results: seq<Removal>)
    ensures |results| <= |targets|
    ensures forall i :: 0 <= i < |results| ==> results[i] == RemovalFrom(outcomes(targets[i]), 0, 5)
    ensures forall i :: 0 <= i < |results| ==>
              (results[i] == GaveUp <==> forall k :: 0 <= k < 5 ==> outcomes(targets[i])(k) == Locked)
    ensures forall i :: 0 <= i < |results| - 1 ==> results[i] != Propagated
    ensures |results| < |targets| ==> results != [] && results[|results| - 1] == Propagated
    ensures (forall i :: 0 <= i < |targets| ==> RemovalFrom(outcomes(targets[i]), 0, 5) != Propagated)
            ==> |results| == |targets|
  {
    results := [];
    for i := 0 to |targets|
      invariant |results| == i
      invariant forall j :: 0 <= j < i ==> results[j] == RemovalFrom(outcomes(targets[j]), 0, 5)
      invariant forall j :: 0 <= j < i ==>
                  (results[j] == GaveUp <==> forall k :: 0 <= k < 5 ==> outcomes(targets[j])(k) == Locked)
      invariant forall j :: 0 <= j < i ==> results[j] != Propagated
    {
      var result, _, _ := SafeRemove(outcomes(targets[i]), 5, 2);
      results := results + [result];
      if result == Propagated {
        return;
      }
    }
  }

  // ------------------------------------------------------ episode ranges

  /** A pre-parsed `<a data-number=… href=… title=…>` of the episode list. */
  datatype Link = Link(number: int, href: string, title: string)

  /** `start_episode <= n <= end_episode`; `download_from_json` skips exactly the numbers outside it. */
  predicate InEpisodeRange(n: int, start: int, end: int)
  {
    start <= n <= end
  }

  /** The episodes `get_episode_urls` lists for the links `links`: those in range, in page order. */
  function EpisodeList(links: seq<Link>, start: int, end: int, base: string, join: (string, string) -> string): seq<Episode>
  {
    if links == [] then []
    else
      var last := links[|links| - 1];
      EpisodeList(links[..|links| - 1], start, end, base, join)
      + (if InEpisodeRange(last.number, start, end) then [Episode(join(base, last.href), last.number, last.title, None, None, None)] else [])
  }

  /** `get_episode_urls` over the page's links (BeautifulSoup's parse is not modelled). */
  method GetEpisodeUrls(links: seq<Link>, start: int, end: int, base: string, join: (string, string) -> string)
    returns (episodes: seq<Episode>)
    ensures episodes == EpisodeList(links, start, end, base, join)
  {
    episodes := [];
    for i := 0 to |links|
      invariant episodes == EpisodeList(links[..i], start, end, base, join)
    {
      assert links[..i + 1][..i] == links[..i];
      var link := links[i];
      if start <= link.number <= end {
        var url := join(base, link.href);
        episodes := episodes + [Episode(url, link.number, link.title, None, None, None)];
      }
    }
    assert links[..|links|] == links;
  }

  /** Listing distributes over the page, so episodes keep the page's order. */
  lemma {:induction false} EpisodeListAppend(a: seq<Link>, b: seq<Link>, start: int, end: int, base: string,
                                             join: (string, string) -> string)
    ensures EpisodeList(a + b, start, end, base, join) == EpisodeList(a, start, end, base, join) + EpisodeList(b, start, end, base, join)
    decreases |b|
  {
    if b != [] {
      assert (a + b)[..|a + b| - 1] == a + b[..|b| - 1];
      EpisodeListAppend(a, b[..|b| - 1], start, end, base, join);
    } else {
      assert a + b == a;
    }
  }

  /** Every listed episode is in range and comes from a link (its url resolved); every link in range is listed. */
  lemma {:induction false} EpisodeListExact(links: seq<Link>, start: int, end: int, base: string, join: (string, string) -> string)
    ensures forall e :: e in EpisodeList(links, start, end, base, join) ==>
              InEpisodeRange(e.number, start, end) && exists l :: l in links && e == Episode(join(base, l.href), l.number, l.title, None, None, None)
    ensures forall l :: l in links && InEpisodeRange(l.number, start, end) ==>
              Episode(join(base, l.href), l.number, l.title, None, None, None) in EpisodeList(links, start, end, base, join)
  {
    if links != [] {
      var init := links[..|links| - 1];
      EpisodeListExact(init, start, end, base, join);
      assert forall l :: l in links ==> l in init || l == links[|links| - 1];
      assert forall l :: l in init ==> l in links;
    }
  }

  function InRangeTest(start: int, end: int): Episode -> bool
  {
    (e: Episode) => InEpisodeRange(e.number, start, end)
  }

  /** The episodes `download_from_json` starts a thread for, in file order. */
  function JsonEpisodes(episodes: seq<Episode>, start: int, end: int): (r: seq<Episode>)
    ensures forall i :: 0 <= i < |r| ==> r[i] in episodes && InEpisodeRange(r[i].number, start, end)
    ensures forall i :: 0 <= i < |episodes| && InEpisodeRange(episodes[i].number, start, end) ==> episodes[i] in r
  {
    Keep(episodes, InRangeTest(start, end))
  }

  /**
   * Downloading from the JSON written for a range, with the same range,
   * downloads every episode it lists: the two filters agree.
   */
  lemma JsonKeepsListedRange(links: seq<Link>, start: int, end: int, base: string, join: (string, string) -> string)
    ensures JsonEpisodes(EpisodeList(links, start, end, base, join), start, end) == EpisodeList(links, start, end, base, join)
  {
    var listed := EpisodeList(links, start, end, base, join);
    EpisodeListExact(links, start, end, base, join);
    assert forall i :: 0 <= i < |listed| ==> listed[i] in listed;
    KeepAll(listed, InRangeTest(start, end));
  }

  /** Narrowing the range in two steps is narrowing it once to the intersection. */
  lemma {:induction false} JsonNarrows(episodes: seq<Episode>, s1: int, e1: int, s2: int, e2: int)
    ensures JsonEpisodes(JsonEpisodes(episodes, s1, e1), s2, e2)
            == JsonEpisodes(episodes, if s1 < s2 then s2 else s1, if e1 < e2 then e1 else e2)
  {
    if episodes != [] {
      JsonNarrows(episodes[1..], s1, e1, s2, e2);
    }
  }
}
