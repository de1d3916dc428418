/**
 * The naming decisions of the extractor: which of sub and dub is downloaded,
 * whether the folder name carries the type, how an episode title is made safe
 * for a file name (`TITLE_TRANS`), and the file name of an episode.
 */
module Naming {
  import opened Basics
  import opened Text
  import opened Prompts

  /** The download type; the source keeps it as the string "sub" or "dub". */
  datatype Kind = Sub | Dub

  function TypeName(k: Kind): string
  {
    match k
    case Sub => "sub"
    case Dub => "dub"
  }

  predicate IsSubWord(word: string)
  {
    word == "sub" || word == "s"
  }

  predicate IsDubWord(word: string)
  {
    word == "dub" || word == "d"
  }

  /** One answer to `get_download_type`, stripped then lower-cased: sub/s or dub/d. */
  function TypeWord(ans: string): Option<Kind>
  {
    var word := Lower(Strip(ans));
    if IsSubWord(word) then Some(Sub) else if IsDubWord(word) then Some(Dub) else None
  }

  /** `get_download_type`: asks until the answer names sub or dub. */
  function GetDownloadType(answers: seq<string>): (r: Reply<Kind>)
    ensures r.Answer? ==> 1 <= r.used <= |answers|
    ensures r.Answer? ==> (r.value == Sub <==> IsSubWord(Lower(Strip(answers[r.used - 1]))))
    ensures r.Answer? ==> (r.value == Dub <==> IsDubWord(Lower(Strip(answers[r.used - 1]))))
    ensures r.Answer? ==> forall j :: 0 <= j < r.used - 1 ==> TypeWord(answers[j]).None?
    ensures r.OutOfInput? ==> forall j :: 0 <= j < |answers| ==> TypeWord(answers[j]).None?
  {
    Ask(answers, TypeWord)
  }

  /** `default_download_type`, when it is set and names sub or dub in any case. */
  function DefaultKind(default: string): Option<Kind>
  {
    if default == "" then None
    else if Lower(default) == "sub" then Some(Sub)
    else if Lower(default) == "dub" then Some(Dub)
    else None
  }

  /**
   * The download-type decision of `run`: with both kinds available the valid
   * default decides, else the prompt; with no dub episodes it is sub, with no
   * sub episodes it is dub. `used == 0` means no question was asked.
   */
  function ChooseDownloadType(subEpisodes: int, dubEpisodes: int, default: string, answers: seq<string>): (r: Reply<Kind>)
    ensures dubEpisodes == 0 ==> r == Answer(Sub, 0)
    ensures subEpisodes == 0 && dubEpisodes != 0 ==> r == Answer(Dub, 0)
    ensures subEpisodes != 0 && dubEpisodes != 0 && DefaultKind(default).Some? ==> r == Answer(DefaultKind(default).value, 0)
    ensures subEpisodes != 0 && dubEpisodes != 0 && DefaultKind(default).None? ==> r == GetDownloadType(answers)
    ensures r.Answer? && r.value == Dub ==> dubEpisodes != 0
    ensures r.Answer? && r.value == Sub ==> subEpisodes != 0 || dubEpisodes == 0
    ensures r.Answer? && r.used > 0 ==> subEpisodes != 0 && dubEpisodes != 0 && DefaultKind(default).None?
  {
    if subEpisodes != 0 && dubEpisodes != 0 then
      match DefaultKind(default)
      case Some(k) => Answer(k, 0)
      case None => GetDownloadType(answers)
    else if dubEpisodes == 0 then Answer(Sub, 0)
    else Answer(Dub, 0)
  }

  /**
   * Subtitles for a dub are asked about once: only an answer that strips and
   * lower-cases to exactly "y" keeps them. For sub, nothing is asked.
   */
  function WantSubtitles(k: Kind, subtitles: bool, answers: seq<string>): (r: Reply<bool>)
    ensures r.Answer? && r.value ==> subtitles
    ensures !(k == Dub && subtitles) ==> r == Answer(subtitles, 0)
    ensures k == Dub && subtitles && answers != [] ==> r == Answer(Lower(Strip(answers[0])) == "y", 1)
    ensures r.OutOfInput? <==> k == Dub && subtitles && answers == []
  {
    if k == Dub && subtitles then
      if answers == [] then OutOfInput else Answer(Lower(Strip(answers[0])) == "y", 1)
    else Answer(subtitles, 0)
  }

  /** Only "y" keeps the subtitles: a "yes" drops them. */
  lemma YesIsNotY()
    ensures WantSubtitles(Dub, true, ["yes"]) == Answer(false, 1)
  {
    StripUnchanged("yes");
    assert Lower("yes") == "yes";
  }

  function UpperChar(c: char): char
  {
    if 'a' <= c <= 'z' then (c as int - 32) as char else c
  }

  /** `download_type[0].upper() + download_type[1:]`. */
  function Capitalised(k: Kind): string
  {
    var t := TypeName(k);
    [UpperChar(t[0])] + t[1..]
  }

  /**
   * `create_anime_folder`'s type suffix: with a default type set, the suffix
   * is empty exactly when the type equals it case-insensitively; without one
   * it is always there.
   */
  function FolderSuffix(k: Kind, default: string): string
  {
    if default != "" then
      if Lower(TypeName(k)) != Lower(default) then " (" + Capitalised(k) + ")" else ""
    else " (" + Capitalised(k) + ")"
  }

  lemma LowerTypeName(k: Kind)
    ensures Lower(TypeName(k)) == TypeName(k)
  {
    assert Lower(TypeName(k))[0] == TypeName(k)[0];
  }

  /** The suffix is omitted iff the type is the default; otherwise it reads " (Sub)" or " (Dub)". */
  lemma FolderSuffixMeaning(k: Kind, default: string)
    ensures FolderSuffix(k, default) == "" <==> default != "" && Lower(default) == TypeName(k)
    ensures FolderSuffix(k, default) != "" ==> FolderSuffix(k, default) == (if k == Sub then " (Sub)" else " (Dub)")
  {
    LowerTypeName(k);
  }

  /** A default type that decided the download never shows in the folder name. */
  lemma DefaultTypeNoSuffix(subEpisodes: int, dubEpisodes: int, default: string, answers: seq<string>)
    requires subEpisodes != 0 && dubEpisodes != 0 && DefaultKind(default).Some?
    ensures FolderSuffix(ChooseDownloadType(subEpisodes, dubEpisodes, default, answers).value, default) == ""
  {
    var k := DefaultKind(default).value;
    FolderSuffixMeaning(k, default);
  }

  /** `BAD_TITLE_CHARS`, the characters `TITLE_TRANS` deletes. */
  const BadTitleChars: string := "-./\\?%*<>|\"[]:"

  predicate IsTitleChar(c: char)
  {
    c !in BadTitleChars
  }

  /** `title.translate(TITLE_TRANS)`: the title without its bad characters, the rest in order. */
  function Sanitise(title: string): (r: string)
    ensures |r| <= |title|
    ensures forall i :: 0 <= i < |r| ==> r[i] !in BadTitleChars && r[i] in title
    ensures forall i :: 0 <= i < |title| && title[i] !in BadTitleChars ==> title[i] in r
  {
    Keep(title, IsTitleChar)
  }

  /** Sanitising twice is sanitising once. */
  lemma SanitiseIdempotent(title: string)
    ensures Sanitise(Sanitise(title)) == Sanitise(title)
  {
    KeepIdempotent(title, IsTitleChar);
  }

  /** A title is left as it is exactly when it has no bad character. */
  lemma SanitiseFixes(title: string)
    ensures Sanitise(title) == title <==> forall i :: 0 <= i < |title| ==> title[i] !in BadTitleChars
  {
    if forall i :: 0 <= i < |title| ==> title[i] !in BadTitleChars {
      KeepAll(title, IsTitleChar);
    }
  }

  /** Characters are deleted where they stand, so the order of the rest is kept. */
  lemma SanitiseAppend(a: string, b: string)
    ensures Sanitise(a + b) == Sanitise(a) + Sanitise(b)
  {
    KeepAppend(a, b, IsTitleChar);
  }

  /** Python's `f"{n:02}"`: at least two characters, zero-padded after the sign. */
  function Pad2(n: int): (r: string)
    ensures |r| >= 2
    ensures n >= 0 ==> AllDigits(r)
    ensures n < 0 ==> r == "-" + NatToString(-n)
  {
    if 0 <= n < 10 then ['0', DigitChar(n)] else IntToString(n)
  }

  /** The digits of a padded natural number denote it. */
  lemma Pad2Value(n: nat)
    ensures DigitsValue(Pad2(n)) == n
  {
    if n < 10 {
      var s := Pad2(n);
      assert s[..|s| - 1] == "0";
      assert "0"[..0] == "";
    } else {
      NatToStringValue(n);
    }
  }

  /** The padded form reads back as the number: `int(f"{n:02}") == n`. */
  lemma Pad2RoundTrip(n: int)
    ensures ParseInt(Pad2(n)) == Some(n)
  {
    if n >= 0 {
      Pad2Value(n);
      ParseDigits(Pad2(n));
    } else {
      NatToStringParses(-n);
      ParseNegative(NatToString(-n));
    }
  }

  /** How an episode is named. */
  datatype Style = Movie | Ova | Season

  /** `is_movie` is tested before `is_ova`. */
  function NameStyle(isMovie: bool, isOva: bool): Style
  {
    if isMovie then Movie else if isOva then Ova else Season
  }

  /**
   * The file name of an episode (without extension): `{title} (Movie)`,
   * `s{season:02}e{number + offset:02} - {title} (OVA)` or
   * `s{season:02}e{number:02} - {title}`, with the sanitised title.
   */
  function EpisodeName(title: string, season: int, number: int, offset: int, style: Style): string
  {
    var t := Sanitise(title);
    match style
    case Movie => t + " (Movie)"
    case Ova => "s" + Pad2(season) + "e" + Pad2(number + offset) + " - " + t + " (OVA)"
    case Season => "s" + Pad2(season) + "e" + Pad2(number) + " - " + t
  }

  /** The sanitised title ends a season name, so it can be read back from it. */
  lemma SeasonNameEndsWithTitle(title: string, season: int, number: int)
    ensures EndsWith(EpisodeName(title, season, number, 0, Season), Sanitise(title))
  {
    var t := Sanitise(title);
    var head := "s" + Pad2(season) + "e" + Pad2(number) + " - ";
    assert EpisodeName(title, season, number, 0, Season) == head + t;
    assert (head + t)[|head|..] == t;
  }

  /** An OVA episode is named like a season episode whose number is shifted by the offset, marked " (OVA)". */
  lemma OvaNameShiftsNumber(title: string, season: int, number: int, offset: int)
    ensures EpisodeName(title, season, number, offset, Ova) == EpisodeName(title, season, number + offset, 0, Season) + " (OVA)"
  {
  }

  /** A movie is named by its title alone: season, number and offset play no part. */
  lemma MovieNameIsTitle(title: string, season: int, number: int, offset: int)
    ensures EpisodeName(title, season, number, offset, Movie) == Sanitise(title) + " (Movie)"
    ensures EndsWith(EpisodeName(title, season, number, offset, Movie), " (Movie)")
  {
    var t := Sanitise(title);
    assert (t + " (Movie)")[|t|..] == " (Movie)";
  }

  /** Two digit strings each followed by a non-digit split a string the same way. */
  lemma {:induction false} DigitsSplit(d1: string, c1: char, r1: string, d2: string, c2: char, r2: string)
    requires AllDigits(d1) && AllDigits(d2) && !IsDigit(c1) && !IsDigit(c2)
    requires d1 + [c1] + r1 == d2 + [c2] + r2
    ensures d1 == d2 && c1 == c2 && r1 == r2
  {
    var s := d1 + [c1] + r1;
    assert s[|d1|] == c1 && s[..|d1|] == d1 && s[|d1| + 1..] == r1;
    var s2 := d2 + [c2] + r2;
    assert s2[|d2|] == c2 && s2[..|d2|] == d2 && s2[|d2| + 1..] == r2;
  }

  /** The layout `s<digits>e<digits> - <title>` determines its three fields. */
  lemma {:induction false} SeasonLayoutSplits(a1: string, b1: string, x1: string, a2: string, b2: string, x2: string)
    requires AllDigits(a1) && AllDigits(b1) && AllDigits(a2) && AllDigits(b2)
    requires "s" + a1 + "e" + b1 + " - " + x1 == "s" + a2 + "e" + b2 + " - " + x2
    ensures a1 == a2 && b1 == b2 && x1 == x2
  {
    var name1 := "s" + a1 + "e" + b1 + " - " + x1;
    var name2 := "s" + a2 + "e" + b2 + " - " + x2;
    var rest1, rest2 := "- " + x1, "- " + x2;
    var tail1, tail2 := b1 + [' '] + rest1, b2 + [' '] + rest2;
    assert name1[1..] == a1 + ['e'] + tail1;
    assert name2[1..] == a2 + ['e'] + tail2;
    DigitsSplit(a1, 'e', tail1, a2, 'e', tail2);
    DigitsSplit(b1, ' ', rest1, b2, ' ', rest2);
    assert rest1[2..] == x1;
    assert rest2[2..] == x2;
  }

  /**
   * Episodes named by season never share a file name unless they share
   * season, number and sanitised title, so the download threads of one
   * folder write to different files.
   */
  lemma SeasonNamesDistinct(t1: string, s1: nat, n1: nat, t2: string, s2: nat, n2: nat)
    requires EpisodeName(t1, s1, n1, 0, Season) == EpisodeName(t2, s2, n2, 0, Season)
    ensures s1 == s2 && n1 == n2 && Sanitise(t1) == Sanitise(t2)
  {
    SeasonLayoutSplits(Pad2(s1), Pad2(n1), Sanitise(t1), Pad2(s2), Pad2(n2), Sanitise(t2));
    Pad2Value(s1);
    Pad2Value(s2);
    Pad2Value(n1);
    Pad2Value(n2);
  }
}
