/**
 * Choosing the streaming server: `get_server_options` picks the block of
 * server buttons for the download type, and `find_server_button` resolves the
 * server name from the `--server` argument, the configured default servers or
 * a numbered prompt, then looks the name up again in the reloaded page.
 * A button is represented by its text; Python's `None` selection is the empty
 * string, which the source treats the same way (both are falsy).
 */
module Servers {
  import opened Basics
  import opened Text
  import opened Prompts

  /** `download_type == "sub" or download_type == "s"`. */
  predicate IsSubType(downloadType: string)
  {
    downloadType == "sub" || downloadType == "s"
  }

  /**
   * `get_server_options`: the page has one block of buttons per type, sub
   * first. A lone block serves either type; sub takes the first block and
   * every other type the second. `None` is the `IndexError` of a page with
   * no block at all.
   */
  function GetServerOptions(groups: seq<seq<string>>, downloadType: string): (r: Option<seq<string>>)
    ensures r.None? <==> groups == []
    ensures r.Some? ==> r.value in groups
    ensures |groups| == 1 ==> r == Some(groups[0])
    ensures groups != [] && IsSubType(downloadType) ==> r == Some(groups[0])
    ensures |groups| >= 2 && !IsSubType(downloadType) ==> r == Some(groups[1])
  {
    if |groups| == 1 || IsSubType(downloadType) then
      if groups == [] then None else Some(groups[0])
    else if |groups| < 2 then None
    else Some(groups[1])
  }

  /** `text.lower().strip()`, the form in which server names are compared. */
  function Norm(s: string): string
  {
    Strip(Lower(s))
  }

  /** The normalised text of every option, index for index. */
  function Normed(options: seq<string>): (r: seq<string>)
    ensures |r| == |options| && forall i :: 0 <= i < |options| ==> r[i] == Norm(options[i])
  {
    seq(|options|, i requires 0 <= i < |options| => Norm(options[i]))
  }

  /** Server names compare case-insensitively. */
  lemma NormIgnoresCase(s: string)
    ensures Norm(Lower(s)) == Norm(s)
  {
    LowerIdempotent(s);
  }

  /** Leading white space plays no part in a comparison. */
  lemma NormIgnoresLeadingSpace(s: string)
    ensures Norm(" " + s) == Norm(s)
  {
    var l := Lower(s);
    assert Lower(" " + s) == " " + l;
    assert (" " + l)[1..] == l;
  }

  /** `default_server` from the configuration: absent, one name, or a list of names. */
  datatype DefaultServer = NoDefault | Default(name: string) | Defaults(names: seq<string>)

  /** The names tried in order; a falsy setting (absent, `""`, `[]`) tries none. */
  function DefaultNames(d: DefaultServer): (r: seq<string>)
    ensures d.Defaults? ==> r == d.names
    ensures d.Default? ==> (r == [] <==> d.name == "") && (r != [] ==> r == [d.name])
    ensures d.NoDefault? ==> r == []
  {
    match d
    case NoDefault => []
    case Default(name) => if name == "" then [] else [name]
    case Defaults(names) => names
  }

  /** The text of the first option matching `name` after normalisation, or `""`. */
  function MatchText(options: seq<string>, name: string): string
  {
    TextAt(options, FirstIndex(Normed(options), Norm(name)))
  }

  /**
   * The default-server loop: the first name whose first matching option has
   * a non-empty text gives that text (an empty text is falsy and the search
   * goes on); `""` when there is none.
   */
  function DefaultSelection(options: seq<string>, names: seq<string>): string
  {
    if names == [] then ""
    else
      var first := MatchText(options, names[0]);
      if first != "" then first else DefaultSelection(options, names[1..])
  }

  /** No name with a non-empty match leaves the default selection empty. */
  lemma {:induction false} DefaultSelectionNone(options: seq<string>, names: seq<string>)
    requires forall d :: 0 <= d < |names| ==> MatchText(options, names[d]) == ""
    ensures DefaultSelection(options, names) == ""
  {
    if names != [] {
      assert forall d :: 0 <= d < |names| - 1 ==> names[1..][d] == names[d + 1];
      DefaultSelectionNone(options, names[1..]);
    }
  }

  /** The first name with a non-empty match decides the default selection. */
  lemma {:induction false} DefaultSelectionAt(options: seq<string>, names: seq<string>, d: nat)
    requires d < |names| && MatchText(options, names[d]) != ""
    requires forall e :: 0 <= e < d ==> MatchText(options, names[e]) == ""
    ensures DefaultSelection(options, names) == MatchText(options, names[d])
  {
    if d > 0 {
      assert MatchText(options, names[0]) == "";
      assert forall e :: 0 <= e < d - 1 ==> names[1..][e] == names[e + 1];
      DefaultSelectionAt(options, names[1..], d - 1);
    }
  }

  /** A non-empty default selection is the text of one of the options. */
  lemma {:induction false} DefaultSelectionOffered(options: seq<string>, names: seq<string>)
    ensures DefaultSelection(options, names) != "" ==> DefaultSelection(options, names) in options
  {
    if names != [] && MatchText(options, names[0]) == "" {
      DefaultSelectionOffered(options, names[1..]);
    }
  }

  /** The selection the arguments give: the last `--server` match, else the default servers. */
  function ArgSelection(options: seq<string>, server: string, defaults: DefaultServer): string
  {
    var byServer := if server == "" then "" else TextAt(options, LastIndex(Normed(options), Norm(server)));
    if byServer != "" then byServer else DefaultSelection(options, DefaultNames(defaults))
  }

  /** `--server` selects the same button whatever its case. */
  lemma ServerArgIgnoresCase(options: seq<string>, server: string, defaults: DefaultServer)
    ensures ArgSelection(options, Lower(server), defaults) == ArgSelection(options, server, defaults)
  {
    NormIgnoresCase(server);
  }

  /**
   * A single default-server name is tried like a one-name list, and an empty
   * one (falsy) like no setting at all.
   */
  lemma DefaultStringIsOneName(options: seq<string>, server: string, name: string)
    ensures name != "" ==> ArgSelection(options, server, Default(name)) == ArgSelection(options, server, Defaults([name]))
    ensures ArgSelection(options, server, Default("")) == ArgSelection(options, server, NoDefault)
  {
  }

  /** How the selection ends: a name, or the prompt ran out of answers, or indexed past an empty list. */
  datatype Choice = Chose(name: string) | ChoiceOutOfInput | ChoiceIndexError

  /**
   * The numbered prompt `get_int_in_range(1, len(options), 1)` and
   * `server_names[k - 1]`. A blank answer gives 1 unchecked, which indexes
   * past the end of an empty list.
   */
  function PromptChoice(options: seq<string>, answers: seq<string>): (r: Choice)
    ensures r == ChoiceIndexError ==> options == []
    ensures r.Chose? ==> r.name in options
  {
    match GetIntInRange(answers, 1, Finite(|options|), Some(1))
    case OutOfInput => ChoiceOutOfInput
    case Answer(k, _) => if k > |options| then ChoiceIndexError else Chose(options[k - 1])
  }

  /** The selection of `find_server_button`: the arguments first, the prompt when they give nothing. */
  function Selection(options: seq<string>, server: string, defaults: DefaultServer, answers: seq<string>): Choice
  {
    var byArgs := ArgSelection(options, server, defaults);
    if byArgs != "" then Chose(byArgs) else PromptChoice(options, answers)
  }

  /**
   * What `find_server_button` returns: the selected name and the index of the
   * first button of the reloaded page whose text is exactly that name (`None`
   * when there is none), or one of the errors it raises.
   */
  datatype ServerPick =
    | Selected(selection: string, button: Option<nat>)
    | NoServerGroup       // `get_server_options` raised IndexError
    | PromptOutOfInput
    | PromptIndexError    // `server_names[0]` of an empty list

  function ServerButton(downloadType: string, groups: seq<seq<string>>, server: string, defaults: DefaultServer,
                        answers: seq<string>, groupsAgain: seq<seq<string>>): ServerPick
  {
    match GetServerOptions(groups, downloadType)
    case None => NoServerGroup
    case Some(options) =>
      match Selection(options, server, defaults, answers)
      case ChoiceOutOfInput => PromptOutOfInput
      case ChoiceIndexError => PromptIndexError
      case Chose(name) =>
        match GetServerOptions(groupsAgain, downloadType)
        case None => NoServerGroup
        case Some(reloaded) => Selected(name, FirstIndex(reloaded, name))
  }

  /**
   * `find_server_button`: the page before the driver restarts offers `groups`,
   * the reloaded one `groupsAgain`; `answers` are the keyboard.
   */
  method FindServerButton(downloadType: string, groups: seq<seq<string>>, server: string, defaults: DefaultServer,
                          answers: seq<string>, groupsAgain: seq<seq<string>>) returns (r: ServerPick)
    ensures r == ServerButton(downloadType, groups, server, defaults, answers, groupsAgain)
  {
    var fetched := GetServerOptions(groups, downloadType);
    if fetched.None? {
      return NoServerGroup;
    }
    var options := fetched.value;
    var selection := ServerArgLoop(options, server);
    if selection == "" {
      selection := DefaultLoop(options, DefaultNames(defaults));
    }
    var choice := Chose(selection);
    if selection == "" {
      choice := PromptLoop(options, answers);
    }
    assert choice == Selection(options, server, defaults, answers);
    if choice.ChoiceOutOfInput? {
      return PromptOutOfInput;
    } else if choice.ChoiceIndexError? {
      return PromptIndexError;
    }
    var again := GetServerOptions(groupsAgain, downloadType);
    if again.None? {
      return NoServerGroup;
    }
    var button := ButtonLoop(again.value, choice.name);
    return Selected(choice.name, button);
  }

  /** The final lookup: the first reloaded button whose text is exactly the selection. */
  method ButtonLoop(reloaded: seq<string>, selection: string) returns (button: Option<nat>)
    ensures button == FirstIndex(reloaded, selection)
  {
    for i := 0 to |reloaded|
      invariant forall j :: 0 <= j < i ==> reloaded[j] != selection
    {
      if reloaded[i] == selection {
        return Some(i);
      }
    }
    return None;
  }

  /** The `--server` loop: every option whose normalised text equals the argument's overwrites the selection. */
  method ServerArgLoop(options: seq<string>, server: string) returns (selection: string)
    ensures selection == if server == "" then "" else TextAt(options, LastIndex(Normed(options), Norm(server)))
  {
    selection := "";
    if server != "" {
      var key := Norm(server);
      ghost var normed := Normed(options);
      for i := 0 to |options|
        invariant selection == TextAt(options, LastIndex(normed[..i], key))
      {
        assert normed[..i + 1][..i] == normed[..i];
        if Norm(options[i]) == key {
          selection := options[i];
        }
      }
      assert normed[..|options|] == normed;
    }
  }

  /** The numbered list `server_names` and the prompt that indexes it. */
  method PromptLoop(options: seq<string>, answers: seq<string>) returns (choice: Choice)
    ensures choice == PromptChoice(options, answers)
  {
    var serverNames: seq<string> := [];
    for i := 0 to |options|
      invariant serverNames == options[..i]
    {
      serverNames := serverNames + [options[i]];
    }
    assert serverNames == options;
    var k := GetIntInRange(answers, 1, Finite(|options|), Some(1));
    if k.OutOfInput? {
      return ChoiceOutOfInput;
    }
    if k.value > |serverNames| {
      return ChoiceIndexError;
    }
    return Chose(serverNames[k.value - 1]);
  }

  /**
   * The nested loops over the default servers: the inner one stops at the
   * first match for a name, the outer one at the first match with a
   * non-empty text.
   */
  method DefaultLoop(options: seq<string>, names: seq<string>) returns (selection: string)
    ensures selection == DefaultSelection(options, names)
  {
    selection := "";
    for d := 0 to |names|
      invariant selection == "" && DefaultSelection(options, names[d..]) == DefaultSelection(options, names)
    {
      selection := FirstMatchLoop(options, names[d]);
      assert names[d..][0] == names[d] && names[d..][1..] == names[d + 1..];
      if selection != "" {
        return;
      }
    }
  }

  /** The inner loop over the options for one default name: it stops at the first match. */
  method FirstMatchLoop(options: seq<string>, name: string) returns (selection: string)
    ensures selection == MatchText(options, name)
  {
    var key := Norm(name);
    selection := "";
    ghost var normed := Normed(options);
    for i := 0 to |options|
      invariant forall j :: 0 <= j < i ==> normed[j] != key
    {
      if Norm(options[i]) == key {
        selection := options[i];
        FirstIndexAt(normed, key, i);
        break;
      }
    }
  }

  /**
   * `--server` decides when an option matches it: the choice is the text of
   * the LAST matching option (the loop has no `break`), whatever the default
   * servers and the keyboard say, provided that text is not empty.
   */
  lemma ServerArgWins(options: seq<string>, server: string, defaults: DefaultServer, answers: seq<string>, i: nat)
    requires server != "" && i < |options| && options[i] != ""
    requires Norm(options[i]) == Norm(server)
    requires forall j :: i < j < |options| ==> Norm(options[j]) != Norm(server)
    ensures Selection(options, server, defaults, answers) == Chose(options[i])
  {
    LastIndexAt(Normed(options), Norm(server), i);
  }

  /**
   * Without a `--server` match, the first default server (in list order)
   * some option matches decides: the choice is the FIRST option matching it.
   */
  lemma FirstDefaultWins(options: seq<string>, server: string, defaults: DefaultServer, answers: seq<string>, d: nat, i: nat)
    requires server == "" || forall j :: 0 <= j < |options| ==> Norm(options[j]) != Norm(server)
    requires d < |DefaultNames(defaults)|
    requires forall e :: 0 <= e < d ==> MatchText(options, DefaultNames(defaults)[e]) == ""
    requires i < |options| && options[i] != "" && Norm(options[i]) == Norm(DefaultNames(defaults)[d])
    requires forall j :: 0 <= j < i ==> Norm(options[j]) != Norm(DefaultNames(defaults)[d])
    ensures Selection(options, server, defaults, answers) == Chose(options[i])
  {
    var names := DefaultNames(defaults);
    var normed := Normed(options);
    if server != "" {
      assert Norm(server) !in normed;
    }
    FirstIndexAt(normed, Norm(names[d]), i);
    DefaultSelectionAt(options, names, d);
  }

  /** A default server no option matches plays no part. */
  lemma UnmatchedDefaultIgnored(options: seq<string>, name: string)
    requires forall j :: 0 <= j < |options| ==> Norm(options[j]) != Norm(name)
    ensures MatchText(options, name) == ""
  {
    assert Norm(name) !in Normed(options);
  }

  /** When the arguments select nothing, a blank answer picks server 1, the prompt's default. */
  lemma BlankPicksFirstServer(options: seq<string>, server: string, defaults: DefaultServer, answers: seq<string>)
    requires ArgSelection(options, server, defaults) == ""
    requires options != [] && |answers| > 0 && Read(answers[0]) == Blank
    ensures Selection(options, server, defaults, answers) == Chose(options[0])
  {
    assert GetIntInRange(answers, 1, Finite(|options|), Some(1)) == Answer(1, 1);
  }

  /** When the arguments select nothing, an answer `k` in `1..len(options)` picks server `k`. */
  lemma NumberPicksServer(options: seq<string>, server: string, defaults: DefaultServer, answers: seq<string>, k: int)
    requires ArgSelection(options, server, defaults) == ""
    requires |answers| > 0 && Read(answers[0]) == Int(k) && 1 <= k <= |options|
    ensures Selection(options, server, defaults, answers) == Chose(options[k - 1])
  {
    assert GetIntInRange(answers, 1, Finite(|options|), Some(1)) == Answer(k, 1);
  }

  /**
   * With no server buttons at all nothing can be selected: every answer but
   * a blank one is out of range, and a blank one indexes `server_names[0]`.
   */
  lemma EmptyPageSelectsNothing(server: string, defaults: DefaultServer, answers: seq<string>)
    ensures !Selection([], server, defaults, answers).Chose?
    ensures Selection([], server, defaults, answers) == ChoiceIndexError
            <==> GetIntInRange(answers, 1, Finite(0), Some(1)).Answer?
  {
    DefaultSelectionOffered([], DefaultNames(defaults));
  }

  /** Whatever decides it, the selection is the text of one of the offered buttons. */
  lemma SelectionIsOffered(options: seq<string>, server: string, defaults: DefaultServer, answers: seq<string>)
    ensures Selection(options, server, defaults, answers).Chose? ==> Selection(options, server, defaults, answers).name in options
  {
    var byServer := if server == "" then "" else TextAt(options, LastIndex(Normed(options), Norm(server)));
    if byServer == "" {
      DefaultSelectionOffered(options, DefaultNames(defaults));
    }
  }

  /**
   * If the reloaded page offers the same buttons, the exact re-lookup always
   * finds the selected one, so `find_server_button` only returns `None` when
   * the page changed.
   */
  lemma SamePageFindsButton(downloadType: string, groups: seq<seq<string>>, server: string, defaults: DefaultServer,
                            answers: seq<string>)
    ensures ServerButton(downloadType, groups, server, defaults, answers, groups).Selected? ==>
              ServerButton(downloadType, groups, server, defaults, answers, groups).button.Some?
  {
    if groups != [] {
      SelectionIsOffered(GetServerOptions(groups, downloadType).value, server, defaults, answers);
    }
  }
}
