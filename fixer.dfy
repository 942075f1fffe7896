/** The body of `__main__` that fixes games: reading app manifests into the
    installed-games dictionary, ordering it by numeric app id, the
    `--single` filter, deciding whether Steam has to be stopped, and the
    loop that applies the per-game plan to the desktop entries and to the
    launch options. */
module Fixer {
  import opened Wrappers
  import opened PyStrings
  import opened Sorting
  import opened FixDatabase
  import opened DesktopEntry
  import opened LaunchOptions
  import opened Resolver

  // ---------------------------------------------------------------------
  // App manifests (`get_installed_games`)
  // ---------------------------------------------------------------------

  /** `line.split('"')[3]`: the text between the third and fourth quote,
      or `IndexError` when the line has fewer than three quotes. */
  function QuotedField(line: string): (r: Result<string>)
    ensures r.Ok? <==> |Split(line, '"')| > 3
    ensures r.Ok? ==> '"' !in r.value
    ensures r.Raise? ==> r.error == IndexError
  {
    var fields := Split(line, '"');
    if |fields| > 3 then Ok(fields[3]) else Raise(IndexError)
  }

  predicate IsAppIdLine(line: string)
  {
    Contains(line, "\"appid\"")
  }

  /** A line that sets the name: it mentions `"name"` and not `"appid"`,
      which takes precedence on the same line. */
  predicate IsNameLine(line: string)
  {
    !IsAppIdLine(line) && Contains(line, "\"name\"")
  }

  /** `(app_id, app_name)` after the loop has read `lines`. */
  function ManifestFields(lines: seq<string>): (r: Result<(string, string)>)
    ensures r.Raise? ==> r.error == IndexError
    ensures r.Ok? ==> '"' !in r.value.0 && '"' !in r.value.1
    decreases |lines|
  {
    if lines == [] then Ok(("", ""))
    else
      var before := ManifestFields(lines[..|lines| - 1]);
      var line := lines[|lines| - 1];
      if before.Raise? then before
      else if IsAppIdLine(line) then
        match QuotedField(line)
        case Ok(id) => Ok((id, before.value.1))
        case Raise(e) => Raise(e)
      else if IsNameLine(line) then
        match QuotedField(line)
        case Ok(name) => Ok((before.value.0, name))
        case Raise(e) => Raise(e)
      else before
  }

  /** The line loop of `get_installed_games` for one manifest. */
  method ParseManifest(lines: seq<string>) returns (r: Result<(string, string)>)
    ensures r == ManifestFields(lines)
  {
    var appId := "";
    var appName := "";
    for i := 0 to |lines|
      invariant ManifestFields(lines[..i]) == Ok((appId, appName))
    {
      var line := lines[i];
      assert lines[..i + 1][..i] == lines[..i];
      if Contains(line, "\"appid\"") {
        var fields := Split(line, '"');
        if |fields| <= 3 {
          assert ManifestFields(lines[..i + 1]) == Raise(IndexError);
          ParseStopsAtError(lines, i + 1);
          return Raise(IndexError);
        }
        appId := fields[3];
      } else if Contains(line, "\"name\"") {
        var fields := Split(line, '"');
        if |fields| <= 3 {
          assert ManifestFields(lines[..i + 1]) == Raise(IndexError);
          ParseStopsAtError(lines, i + 1);
          return Raise(IndexError);
        }
        appName := fields[3];
      }
    }
    assert lines[..|lines|] == lines;
    return Ok((appId, appName));
  }

  /** Once a line has raised, the rest of the manifest is not read. */
  lemma {:induction false} ParseStopsAtError(lines: seq<string>, k: nat)
    requires k <= |lines| && ManifestFields(lines[..k]).Raise?
    ensures ManifestFields(lines) == ManifestFields(lines[..k])
    decreases |lines| - k
  {
    if k < |lines| {
      assert lines[..k + 1][..k] == lines[..k];
      ParseStopsAtError(lines, k + 1);
    } else {
      assert lines[..k] == lines;
    }
  }

  /** A manifest raises exactly when one of its `"appid"` or `"name"` lines
      has fewer than three quotes. */
  lemma {:induction false} ManifestRaisesIff(lines: seq<string>)
    ensures ManifestFields(lines).Raise? <==>
              exists i :: 0 <= i < |lines| && (IsAppIdLine(lines[i]) || IsNameLine(lines[i]))
                                           && |Split(lines[i], '"')| <= 3
    decreases |lines|
  {
    if lines != [] {
      var init := lines[..|lines| - 1];
      ManifestRaisesIff(init);
      forall i | 0 <= i < |init| ensures init[i] == lines[i] { }
    }
  }

  /** The last `"appid"` line sets the app id. */
  lemma {:induction false} LastAppIdLineWins(lines: seq<string>, k: nat)
    requires ManifestFields(lines).Ok?
    requires k < |lines| && IsAppIdLine(lines[k])
    requires forall j :: k < j < |lines| ==> !IsAppIdLine(lines[j])
    ensures QuotedField(lines[k]).Ok?
    ensures ManifestFields(lines).value.0 == QuotedField(lines[k]).value
    decreases |lines|
  {
    var init := lines[..|lines| - 1];
    if k < |lines| - 1 {
      LastAppIdLineWins(init, k);
    }
  }

  /** The last line that sets the name sets it. */
  lemma {:induction false} LastNameLineWins(lines: seq<string>, k: nat)
    requires ManifestFields(lines).Ok?
    requires k < |lines| && IsNameLine(lines[k])
    requires forall j :: k < j < |lines| ==> !IsNameLine(lines[j])
    ensures QuotedField(lines[k]).Ok?
    ensures ManifestFields(lines).value.1 == QuotedField(lines[k]).value
    decreases |lines|
  {
    var init := lines[..|lines| - 1];
    if k < |lines| - 1 {
      LastNameLineWins(init, k);
    }
  }

  /** A manifest without an `"appid"` line yields the empty id, and the
      game is not recorded. */
  lemma {:induction false} NoAppIdLineGivesEmptyId(lines: seq<string>)
    requires ManifestFields(lines).Ok?
    requires forall j :: 0 <= j < |lines| ==> !IsAppIdLine(lines[j])
    ensures ManifestFields(lines).value.0 == ""
    decreases |lines|
  {
    if lines != [] {
      NoAppIdLineGivesEmptyId(lines[..|lines| - 1]);
    }
  }

  /** One file of a library's `steamapps` directory: its name and lines. */
  datatype Manifest = Manifest(fileName: string, lines: seq<string>)

  predicate IsManifestFile(fileName: string)
  {
    Contains(fileName, "appmanifest") && Contains(fileName, ".acf")
  }

  /** `d[key] = v` on an insertion-ordered dictionary: an existing key keeps
      its place and takes the new value; a new key goes last. */
  function Put<V>(es: Entries<V>, key: string, v: V): (r: Entries<V>)
    ensures |r| == if HasKey(es, key) then |es| else |es| + 1
    ensures forall i :: 0 <= i < |es| ==> r[i].0 == es[i].0
    ensures !HasKey(es, key) ==> r == es + [(key, v)]
  {
    if es == [] then [(key, v)]
    else if es[0].0 == key then [(key, v)] + es[1..]
    else [es[0]] + Put(es[1..], key, v)
  }

  /** After `d[key] = v`, `d[key]` is `v`. */
  lemma {:induction false} PutGetsValue<V>(es: Entries<V>, key: string, v: V)
    ensures Get(Put(es, key, v), key) == Some(v)
    decreases |es|
  {
    if es != [] && es[0].0 != key {
      var rest := Put(es[1..], key, v);
      assert Put(es, key, v)[1..] == rest;
      PutGetsValue(es[1..], key, v);
    }
  }

  /** After `d[key] = v`, every other key reads as before. */
  lemma {:induction false} PutKeepsOthers<V>(es: Entries<V>, key: string, v: V, other: string)
    requires other != key
    ensures Get(Put(es, key, v), other) == Get(es, other)
    decreases |es|
  {
    if es != [] {
      var r := Put(es, key, v);
      if es[0].0 == key {
        assert r[1..] == es[1..];
      } else {
        assert r[1..] == Put(es[1..], key, v);
        PutKeepsOthers(es[1..], key, v, other);
      }
    }
  }

  /** `d[key] = v` never makes a key occur twice. */
  lemma PutKeepsDistinct<V>(es: Entries<V>, key: string, v: V)
    requires DistinctKeys(es)
    ensures DistinctKeys(Put(es, key, v))
  {
    var r := Put(es, key, v);
    if !HasKey(es, key) {
      assert forall i :: 0 <= i < |es| ==> es[i].0 != key;
    }
  }

  /** Manifest `m` records the game `id`. */
  predicate Records(m: Manifest, id: string)
  {
    && IsManifestFile(m.fileName)
    && ManifestFields(m.lines).Ok?
    && ManifestFields(m.lines).value.0 == id
    && id != ""
  }

  /** `found_games` after the files `manifests` (in walk order) were read. */
  function InstalledGames(manifests: seq<Manifest>): (r: Result<Entries<string>>)
    ensures r.Raise? ==> r.error == IndexError
    ensures r.Ok? ==> |r.value| <= |manifests|
    decreases |manifests|
  {
    if manifests == [] then Ok([])
    else
      var before := InstalledGames(manifests[..|manifests| - 1]);
      var m := manifests[|manifests| - 1];
      if before.Raise? || !IsManifestFile(m.fileName) then before
      else
        var fields := ManifestFields(m.lines);
        if fields.Raise? then Raise(fields.error)
        else if fields.value.0 != "" then Ok(Put(before.value, fields.value.0, fields.value.1))
        else before
  }

  /** `get_installed_games` over the files of every library. */
  method GetInstalledGames(manifests: seq<Manifest>) returns (r: Result<Entries<string>>)
    ensures r == InstalledGames(manifests)
  {
    var found: Entries<string> := [];
    for i := 0 to |manifests|
      invariant InstalledGames(manifests[..i]) == Ok(found)
    {
      assert manifests[..i + 1][..i] == manifests[..i];
      var m := manifests[i];
      if Contains(m.fileName, "appmanifest") && Contains(m.fileName, ".acf") {
        var fields := ParseManifest(m.lines);
        if fields.Raise? {
          InstalledStopsAtError(manifests, i + 1);
          return Raise(fields.error);
        }
        var appId := fields.value.0;
        var appName := fields.value.1;
        if appId != "" {
          found := Put(found, appId, appName);
        }
      }
    }
    assert manifests[..|manifests|] == manifests;
    return Ok(found);
  }

  lemma {:induction false} InstalledStopsAtError(manifests: seq<Manifest>, k: nat)
    requires k <= |manifests| && InstalledGames(manifests[..k]).Raise?
    ensures InstalledGames(manifests) == InstalledGames(manifests[..k])
    decreases |manifests| - k
  {
    if k < |manifests| {
      assert manifests[..k + 1][..k] == manifests[..k];
      InstalledStopsAtError(manifests, k + 1);
    } else {
      assert manifests[..k] == manifests;
    }
  }

  /** The installed games are keyed by distinct app ids, exactly the ids
      some manifest file records. */
  lemma {:induction false} InstalledGamesKeys(manifests: seq<Manifest>)
    requires InstalledGames(manifests).Ok?
    ensures DistinctKeys(InstalledGames(manifests).value)
    ensures forall id :: HasKey(InstalledGames(manifests).value, id) <==>
                           exists i :: 0 <= i < |manifests| && Records(manifests[i], id)
  {
    InstalledGamesDistinct(manifests);
    forall id ensures HasKey(InstalledGames(manifests).value, id) <==>
                        exists i :: 0 <= i < |manifests| && Records(manifests[i], id) {
      InstalledHasKey(manifests, id);
    }
  }

  lemma {:induction false} InstalledGamesDistinct(manifests: seq<Manifest>)
    requires InstalledGames(manifests).Ok?
    ensures DistinctKeys(InstalledGames(manifests).value)
    decreases |manifests|
  {
    if manifests != [] {
      var init := manifests[..|manifests| - 1];
      var m := manifests[|manifests| - 1];
      InstalledGamesDistinct(init);
      if IsManifestFile(m.fileName) && ManifestFields(m.lines).value.0 != "" {
        PutKeepsDistinct(InstalledGames(init).value, ManifestFields(m.lines).value.0, ManifestFields(m.lines).value.1);
      }
    }
  }

  lemma {:induction false} InstalledHasKey(manifests: seq<Manifest>, id: string)
    requires InstalledGames(manifests).Ok?
    ensures HasKey(InstalledGames(manifests).value, id) <==> RecordedIn(manifests, id)
    decreases |manifests|
  {
    if manifests != [] {
      var init := manifests[..|manifests| - 1];
      var m := manifests[|manifests| - 1];
      assert InstalledGames(init).Ok?;
      InstalledHasKey(init, id);
      RecordedInLast(manifests, id);
      var before := InstalledGames(init).value;
      if IsManifestFile(m.fileName) && ManifestFields(m.lines).value.0 != "" {
        var id0 := ManifestFields(m.lines).value.0;
        assert InstalledGames(manifests).value == Put(before, id0, ManifestFields(m.lines).value.1);
        if id == id0 {
          PutGetsValue(before, id0, ManifestFields(m.lines).value.1);
        } else {
          PutKeepsOthers(before, id0, ManifestFields(m.lines).value.1, id);
        }
      } else {
        assert InstalledGames(manifests).value == before;
      }
    }
  }

  /** Some manifest of `manifests` records the game `id`. */
  predicate RecordedIn(manifests: seq<Manifest>, id: string)
  {
    exists i :: 0 <= i < |manifests| && Records(manifests[i], id)
  }

  lemma RecordedInLast(manifests: seq<Manifest>, id: string)
    requires manifests != []
    ensures RecordedIn(manifests, id) <==>
              RecordedIn(manifests[..|manifests| - 1], id) || Records(manifests[|manifests| - 1], id)
  {
    var init := manifests[..|manifests| - 1];
    if RecordedIn(init, id) {
      var i :| 0 <= i < |init| && Records(init[i], id);
      assert manifests[i] == init[i];
    }
    if RecordedIn(manifests, id) {
      var i :| 0 <= i < |manifests| && Records(manifests[i], id);
      if i < |init| {
        assert init[i] == manifests[i];
      }
    }
  }

  /** When several manifests record the same app id, the name comes from
      the last of them. */
  lemma {:induction false} LastManifestNameWins(manifests: seq<Manifest>, k: nat, id: string)
    requires InstalledGames(manifests).Ok?
    requires k < |manifests| && Records(manifests[k], id)
    requires forall j :: k < j < |manifests| ==> !Records(manifests[j], id)
    ensures Get(InstalledGames(manifests).value, id) == Some(ManifestFields(manifests[k].lines).value.1)
    decreases |manifests|
  {
    var init := manifests[..|manifests| - 1];
    var m := manifests[|manifests| - 1];
    var before := InstalledGames(init).value;
    if IsManifestFile(m.fileName) && ManifestFields(m.lines).value.0 != "" {
      var id0 := ManifestFields(m.lines).value.0;
      if id0 == id {
        PutGetsValue(before, id0, ManifestFields(m.lines).value.1);
      } else {
        PutKeepsOthers(before, id0, ManifestFields(m.lines).value.1, id);
      }
    }
    if k < |manifests| - 1 {
      LastManifestNameWins(init, k, id);
    }
  }

  // ---------------------------------------------------------------------
  // Ordering by app id (`sorted(..., key=lambda item: int(item[0]))`)
  // ---------------------------------------------------------------------

  /** `int(item[0])`; the value for an id that does not parse is never
      used, since such an id makes the sort raise. */
  function IdKey(entry: (string, string)): int
  {
    match ParseInt(entry.0)
    case Ok(n) => n
    case Raise(_) => 0
  }

  predicate AllIdsNumeric(games: Entries<string>)
  {
    forall i :: 0 <= i < |games| ==> ParseInt(games[i].0).Ok?
  }

  /** `installed_games`: the installed games in ascending numeric order of
      their ids, or `ValueError` when an id is not an integer. */
  function SortInstalled(games: Entries<string>): (r: Result<Entries<string>>)
    ensures r.Ok? <==> AllIdsNumeric(games)
    ensures r.Raise? ==> r.error == ValueError
    ensures r.Ok? ==> multiset(r.value) == multiset(games)
    ensures r.Ok? ==> forall i, j :: 0 <= i < j < |r.value| ==> IdKey(r.value[i]) <= IdKey(r.value[j])
  {
    if AllIdsNumeric(games) then Ok(Sort(games, IdKey)) else Raise(ValueError)
  }

  /** The sorted games are ordered by the integer value of their ids: "99"
      comes before "100". */
  lemma SortedByNumericId(games: Entries<string>, i: nat, j: nat)
    requires SortInstalled(games).Ok?
    requires i < j < |SortInstalled(games).value|
    ensures ParseInt(SortInstalled(games).value[i].0).Ok? && ParseInt(SortInstalled(games).value[j].0).Ok?
    ensures ParseInt(SortInstalled(games).value[i].0).value <= ParseInt(SortInstalled(games).value[j].0).value
  {
    var r := SortInstalled(games).value;
    assert r[i] in multiset(games) && r[j] in multiset(games);
    var a :| 0 <= a < |games| && games[a] == r[i];
    var b :| 0 <= b < |games| && games[b] == r[j];
  }

  /** Games whose ids have the same integer value keep their relative
      order. */
  lemma SortInstalledIsStable(games: Entries<string>, v: int)
    requires SortInstalled(games).Ok?
    ensures WithKey(SortInstalled(games).value, IdKey, v) == WithKey(games, IdKey, v)
  {
    SortIsStable(games, IdKey, v);
  }

  /** Sorting games already in numeric order changes nothing. */
  lemma SortInstalledKeepsSortedInput(games: Entries<string>)
    requires AllIdsNumeric(games) && SortedBy(games, IdKey)
    ensures SortInstalled(games) == Ok(games)
  {
    SortFixesExactlySorted(games, IdKey);
  }

  // ---------------------------------------------------------------------
  // `--single`
  // ---------------------------------------------------------------------

  /** `{k: v for k, v in games.items() if k == key}`. */
  function OnlyKey(games: Entries<string>, key: string): (r: Entries<string>)
    ensures forall i :: 0 <= i < |r| ==> r[i].0 == key && r[i] in games
  {
    if games == [] then []
    else (if games[0].0 == key then [games[0]] else []) + OnlyKey(games[1..], key)
  }

  /** The `--single` filter: applied only when the requested game is
      fixable. */
  function SingleFilter(fixable: Entries<string>, single: string): (r: Entries<string>)
    ensures forall i :: 0 <= i < |r| ==> r[i] in fixable
  {
    if single != "" && HasKey(fixable, single) then OnlyKey(fixable, single) else fixable
  }

  lemma {:induction false} OnlyKeyOfDistinct(games: Entries<string>, key: string)
    requires DistinctKeys(games) && HasKey(games, key)
    ensures OnlyKey(games, key) == [(key, Get(games, key).value)]
    decreases |games|
  {
    var rest := games[1..];
    assert forall i :: 0 <= i < |rest| ==> rest[i] == games[i + 1];
    if games[0].0 == key {
      assert forall i :: 0 <= i < |rest| ==> rest[i].0 != key;
      OnlyKeyMissing(rest, key);
    } else {
      assert Get(games, key) == Get(rest, key);
      OnlyKeyOfDistinct(rest, key);
    }
  }

  lemma {:induction false} OnlyKeyMissing(games: Entries<string>, key: string)
    requires forall i :: 0 <= i < |games| ==> games[i].0 != key
    ensures OnlyKey(games, key) == []
    decreases |games|
  {
    if games != [] {
      assert forall i :: 0 <= i < |games| - 1 ==> games[1..][i] == games[i + 1];
      OnlyKeyMissing(games[1..], key);
    }
  }

  /** `--single` with a fixable game keeps just that game and its name; an
      empty or unknown `--single` keeps every fixable game. */
  lemma SingleFilterCases(fixable: Entries<string>, single: string)
    requires DistinctKeys(fixable)
    ensures single != "" && HasKey(fixable, single) ==>
              SingleFilter(fixable, single) == [(single, Get(fixable, single).value)]
    ensures single == "" || !HasKey(fixable, single) ==> SingleFilter(fixable, single) == fixable
  {
    if single != "" && HasKey(fixable, single) {
      OnlyKeyOfDistinct(fixable, single);
    }
  }

  // ---------------------------------------------------------------------
  // Stopping Steam
  // ---------------------------------------------------------------------

  /** `steam_termination_required`: some fixable game is in `wm_names`. */
  method SteamTerminationRequired(fixable: Entries<string>, names: Partition) returns (r: bool)
    ensures r <==> exists i :: 0 <= i < |fixable| && HasKey(names, fixable[i].0)
  {
    r := false;
    var i := 0;
    while i < |fixable|
      invariant 0 <= i <= |fixable|
      invariant forall j :: 0 <= j < i ==> !HasKey(names, fixable[j].0)
    {
      if HasKey(names, fixable[i].0) {
        r := true;
        break;
      }
      i := i + 1;
    }
  }

  /** `steam_detected`: Steam is looked for only outside `--pretend` and
      only when termination is required; `detected` is what `steam_detect`
      answers. */
  function SteamDetected(pretend: bool, required: bool, detected: bool): (r: bool)
    ensures r ==> !pretend && required
  {
    if pretend then false
    else if required then detected
    else false
  }

  // ---------------------------------------------------------------------
  // The fix loop
  // ---------------------------------------------------------------------

  /** One `fix_launch_option(app_id, wm_name, wm_name_alt)` call. */
  type Request = (string, string, string)

  /** What the loop has done after a prefix of the games: the
      `try_to_create_desktop_file` calls and the `fix_launch_option` calls
      in order, `launch_option_counter`, and the exception that ended the
      loop, if any. */
  datatype Outcome = Outcome(entries: seq<DesktopSpec>, requests: seq<Request>, counter: nat, error: Option<PyError>)

  /** One turn of the loop over `fixable_games`, after the earlier turns
      left `before`; a raised exception ends the loop. */
  function PlanStep(before: Outcome, game: (string, string), classes: Partition, names: Partition,
                    protonGames: set<string>, flags: Flags): Outcome
  {
    if before.error.Some? then before
    else
      var plan := Classify(game.0, game.1, classes, names, protonGames, flags);
      if plan.Raise? then before.(error := Some(plan.error))
      else
        var p := plan.value;
        Outcome(before.entries + p.entries,
                before.requests + (if p.request.Some? then [(game.0, p.request.value.0, p.request.value.1)] else []),
                before.counter + (if p.counted then 1 else 0),
                None)
  }

  /** The loop over `fixable_games`, game by game. */
  function PlanRun(games: Entries<string>, classes: Partition, names: Partition,
                   protonGames: set<string>, flags: Flags): (r: Outcome)
    ensures r.counter <= |games|
    ensures |r.requests| <= r.counter
    ensures r.error.Some? ==> r.error.value == AttributeError
    decreases |games|
  {
    if games == [] then Outcome([], [], 0, None)
    else PlanStep(PlanRun(games[..|games| - 1], classes, names, protonGames, flags), games[|games| - 1],
                  classes, names, protonGames, flags)
  }

  /** The launch-option files after the requests, in order. */
  function PatchAll(files: seq<Apps>, requests: seq<Request>, realPath: string): (r: seq<Apps>)
    ensures |r| == |files|
    decreases |requests|
  {
    if requests == [] then files
    else
      var last := requests[|requests| - 1];
      PatchEach(PatchAll(files, requests[..|requests| - 1], realPath), last.0, realPath, last.1, last.2)
  }

  /** Once the loop has raised, later games change nothing. */
  lemma {:induction false} RunStopsAtError(games: Entries<string>, classes: Partition, names: Partition,
                                           protonGames: set<string>, flags: Flags, k: nat)
    requires k <= |games| && PlanRun(games[..k], classes, names, protonGames, flags).error.Some?
    ensures PlanRun(games, classes, names, protonGames, flags) == PlanRun(games[..k], classes, names, protonGames, flags)
    decreases |games| - k
  {
    if k < |games| {
      assert games[..k + 1][..k] == games[..k];
      RunStopsAtError(games, classes, names, protonGames, flags, k + 1);
    } else {
      assert games[..k] == games;
    }
  }

  /** The earlier games' calls come first: a run over a prefix of the
      games did a prefix of the calls. */
  lemma {:induction false} RunPrefix(games: Entries<string>, classes: Partition, names: Partition,
                                     protonGames: set<string>, flags: Flags, k: nat)
    requires k <= |games|
    ensures var part := PlanRun(games[..k], classes, names, protonGames, flags);
            var whole := PlanRun(games, classes, names, protonGames, flags);
            part.entries <= whole.entries && part.requests <= whole.requests && part.counter <= whole.counter
    decreases |games| - k
  {
    if k < |games| {
      assert games[..k + 1][..k] == games[..k];
      RunPrefix(games, classes, names, protonGames, flags, k + 1);
    } else {
      assert games[..k] == games;
    }
  }

  /** A game that is neither Proton nor in `wm_classes` but is in
      `wm_names`: the games `launch_option_counter` counts. */
  predicate NamesGame(id: string, classes: Partition, names: Partition, protonGames: set<string>, flags: Flags)
  {
    id !in protonGames && !(flags.single != "" && flags.proton) && !HasKey(classes, id) && HasKey(names, id)
  }

  /** A run that did not raise counted at least one game exactly when one
      of the games is a `wm_names` game, and then some fixable game is in
      `wm_names`, so Steam had to be looked for. */
  lemma {:induction false} CounterCountsNamesGames(games: Entries<string>, classes: Partition, names: Partition,
                                                   protonGames: set<string>, flags: Flags)
    requires PlanRun(games, classes, names, protonGames, flags).error == None
    ensures PlanRun(games, classes, names, protonGames, flags).counter > 0 <==>
              exists i :: 0 <= i < |games| && NamesGame(games[i].0, classes, names, protonGames, flags)
    ensures PlanRun(games, classes, names, protonGames, flags).counter > 0 ==>
              exists i :: 0 <= i < |games| && HasKey(names, games[i].0)
    decreases |games|
  {
    if games != [] {
      var init := games[..|games| - 1];
      var last := games[|games| - 1];
      CounterCountsNamesGames(init, classes, names, protonGames, flags);
      forall i | 0 <= i < |init| ensures init[i] == games[i] { }
      if NamesGame(last.0, classes, names, protonGames, flags) {
        assert NamesGame(games[|games| - 1].0, classes, names, protonGames, flags);
      }
    }
  }

  /** `--pretend` does not stop the launch-option fix: Steam is not looked
      for, so every `wm_names` string reached by the loop is patched. */
  lemma PretendStillPatches(games: Entries<string>, classes: Partition, names: Partition, protonGames: set<string>,
                            single: string, proton: bool, required: bool, detected: bool, k: nat, value: string)
    requires k < |games|
    requires var flags := Flags(single, proton, SteamDetected(true, required, detected));
             PlanRun(games[..k], classes, names, protonGames, flags).error == None
    requires games[k].0 !in protonGames && !(single != "" && proton)
    requires !HasKey(classes, games[k].0) && Get(names, games[k].0) == Some(Str(value))
    ensures var flags := Flags(single, proton, SteamDetected(true, required, detected));
            (games[k].0, WindowNames(value).0, WindowNames(value).1)
              in PlanRun(games, classes, names, protonGames, flags).requests
  {
    var flags := Flags(single, proton, SteamDetected(true, required, detected));
    assert games[..k + 1][..k] == games[..k];
    var part := PlanRun(games[..k + 1], classes, names, protonGames, flags);
    assert part.requests[|part.requests| - 1] == (games[k].0, WindowNames(value).0, WindowNames(value).1);
    RunPrefix(games, classes, names, protonGames, flags, k + 1);
    var whole := PlanRun(games, classes, names, protonGames, flags);
    assert whole.requests[|part.requests| - 1] == part.requests[|part.requests| - 1];
  }

  /** While Steam is running no launch option is patched, and the loop
      cannot raise. */
  lemma {:induction false} RunningSteamPatchesNothing(games: Entries<string>, classes: Partition, names: Partition,
                                                      protonGames: set<string>, flags: Flags)
    requires flags.steamDetected
    ensures PlanRun(games, classes, names, protonGames, flags).requests == []
    ensures PlanRun(games, classes, names, protonGames, flags).error == None
    decreases |games|
  {
    if games != [] {
      RunningSteamPatchesNothing(games[..|games| - 1], classes, names, protonGames, flags);
    }
  }

  /** The entry a Proton game gets. */
  function ProtonEntry(game: (string, string)): DesktopSpec
  {
    DesktopSpec(Hyphenated(game.1), game.1, game.0, ProtonClass(game.0), false)
  }

  /** With `--single` and `--proton`, every game of the loop is treated as
      a Proton game, whatever the database says; when the `--single` game
      is not fixable the filter is skipped and that is every fixable game. */
  lemma {:induction false} SingleProtonMarksEveryGame(games: Entries<string>, classes: Partition, names: Partition,
                                                      protonGames: set<string>, flags: Flags)
    requires flags.single != "" && flags.proton
    ensures PlanRun(games, classes, names, protonGames, flags)
         == Outcome(seq(|games|, i requires 0 <= i < |games| => ProtonEntry(games[i])), [], 0, None)
    decreases |games|
  {
    if games != [] {
      var init := games[..|games| - 1];
      SingleProtonMarksEveryGame(init, classes, names, protonGames, flags);
      assert seq(|games|, i requires 0 <= i < |games| => ProtonEntry(games[i]))
          == seq(|init|, i requires 0 <= i < |init| => ProtonEntry(init[i])) + [ProtonEntry(games[|games| - 1])];
    }
  }

  /** The closing message of the fix loop. */
  datatype Closing = NoNote | SteamWarning | FixLegend

  /** Printed only when a game was counted: the warning when Steam was
      running, else the legend of the `*` marker. */
  function ClosingNote(counter: nat, steamDetected: bool): (r: Closing)
    ensures r == NoNote <==> counter == 0
  {
    if counter > 0 then (if steamDetected then SteamWarning else FixLegend) else NoNote
  }

  /** The warning about a running Steam appears exactly when Steam was
      detected and some `wm_names` game was skipped. */
  lemma SteamWarningIffSkipped(games: Entries<string>, classes: Partition, names: Partition,
                               protonGames: set<string>, flags: Flags)
    requires flags.steamDetected
    ensures ClosingNote(PlanRun(games, classes, names, protonGames, flags).counter, true) == SteamWarning <==>
              exists i :: 0 <= i < |games| && NamesGame(games[i].0, classes, names, protonGames, flags)
  {
    RunningSteamPatchesNothing(games, classes, names, protonGames, flags);
    CounterCountsNamesGames(games, classes, names, protonGames, flags);
  }

  /** The fix loop of `__main__` (`for game in fixable_games: ...`), on
      the report buffer and desktop files of `emitter` and the launch
      options of `configs`. */
  method FixGames(games: Entries<string>, classes: Partition, names: Partition, protonGames: set<string>,
                  flags: Flags, emitter: Emitter, configs: LocalConfigs)
    returns (counter: nat, error: Option<PyError>)
    modifies emitter, configs
    ensures var o := PlanRun(games, classes, names, protonGames, flags);
            && counter == o.counter && error == o.error
            && emitter.printBuffer == ReportAll(old(emitter.printBuffer), o.entries, emitter.dir, emitter.verbose)
            && emitter.files == WriteAll(old(emitter.files), o.entries, emitter.dir, emitter.pretend)
            && configs.files == PatchAll(old(configs.files), o.requests, configs.realPath)
  {
    counter := 0;
    error := None;
    ghost var buffer0 := emitter.printBuffer;
    ghost var files0 := emitter.files;
    ghost var configs0 := configs.files;
    ghost var entries: seq<DesktopSpec> := [];
    ghost var requests: seq<Request> := [];
    for i := 0 to |games|
      invariant PlanRun(games[..i], classes, names, protonGames, flags) == Outcome(entries, requests, counter, None)
      invariant emitter.printBuffer == ReportAll(buffer0, entries, emitter.dir, emitter.verbose)
      invariant emitter.files == WriteAll(files0, entries, emitter.dir, emitter.pretend)
      invariant configs.files == PatchAll(configs0, requests, configs.realPath)
    {
      var game := games[i];
      ghost var next := PlanStep(Outcome(entries, requests, counter, None), game, classes, names, protonGames, flags);
      assert PlanRun(games[..i + 1], classes, names, protonGames, flags) == next by {
        assert games[..i + 1][..i] == games[..i];
      }
      var plan := Classify(game.0, game.1, classes, names, protonGames, flags);
      if plan.Raise? {
        error := Some(plan.error);
        assert PlanRun(games, classes, names, protonGames, flags) == Outcome(entries, requests, counter, error) by {
          assert next == Outcome(entries, requests, counter, error);
          RunStopsAtError(games, classes, names, protonGames, flags, i + 1);
        }
        return;
      }
      counter, entries, requests := ApplyPlan(game.0, plan.value, emitter, configs, buffer0, files0, configs0,
                                              counter, entries, requests);
      assert next == Outcome(entries, requests, counter, None);
    }
    assert games[..|games|] == games;
  }

  /** The effects of one planned game on the state the earlier games left:
      the launch-option fix when one is requested, the desktop entries, and
      the counter. */
  method ApplyPlan(id: string, p: Plan, emitter: Emitter, configs: LocalConfigs,
                   ghost buffer0: seq<string>, ghost files0: map<string, string>, ghost configs0: seq<Apps>,
                   counter: nat, ghost entries: seq<DesktopSpec>, ghost requests: seq<Request>)
    returns (counter': nat, ghost entries': seq<DesktopSpec>, ghost requests': seq<Request>)
    modifies emitter, configs
    requires emitter.printBuffer == ReportAll(buffer0, entries, emitter.dir, emitter.verbose)
    requires emitter.files == WriteAll(files0, entries, emitter.dir, emitter.pretend)
    requires configs.files == PatchAll(configs0, requests, configs.realPath)
    ensures counter' == counter + (if p.counted then 1 else 0)
    ensures entries' == entries + p.entries
    ensures requests' == requests + (if p.request.Some? then [(id, p.request.value.0, p.request.value.1)] else [])
    ensures emitter.printBuffer == ReportAll(buffer0, entries', emitter.dir, emitter.verbose)
    ensures emitter.files == WriteAll(files0, entries', emitter.dir, emitter.pretend)
    ensures configs.files == PatchAll(configs0, requests', configs.realPath)
  {
    counter' := counter;
    requests' := requests;
    if p.counted {
      counter' := counter + 1;
    }
    if p.request.Some? {
      configs.FixLaunchOption(id, p.request.value.0, p.request.value.1);
      requests' := requests + [(id, p.request.value.0, p.request.value.1)];
      assert requests'[..|requests'| - 1] == requests;
    }
    emitter.TryToCreateDesktopFiles(p.entries);
    RunsAppend(buffer0, files0, entries, p.entries, emitter.dir, emitter.pretend, emitter.verbose);
    entries' := entries + p.entries;
  }
}
