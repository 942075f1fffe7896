/** The decision the fix loop makes for one fixable game: which desktop
    entries to create and whether to patch its launch options.  Proton
    comes first, then a `wm_classes` record, then a `wm_names` record. */
module Resolver {
  import opened Wrappers
  import opened PyStrings
  import opened FixDatabase
  import opened DesktopEntry

  /** What the loop does for one game: the calls of
      `try_to_create_desktop_file`, in order; the `(wm_name, wm_name_alt)`
      passed to `fix_launch_option`, if it is called; and whether
      `launch_option_counter` is incremented. */
  datatype Plan = Plan(entries: seq<DesktopSpec>, request: Option<(string, string)>, counted: bool)

  /** The flags of one run that the decision reads. */
  datatype Flags = Flags(single: string, proton: bool, steamDetected: bool)

  /** `game_name.replace(" ", "-")`. */
  function Hyphenated(s: string): string
  {
    Replace(s, ' ', '-')
  }

  /** `"steam_app_" + game`: the class Steam gives every Proton game. */
  function ProtonClass(id: string): string
  {
    "steam_app_" + id
  }

  /** The entry for one `"class=name"` record of a `wm_classes` list: the
      class is the text before the first `=`, the display name the second
      field, or the catalog name when that field is empty; a record without
      `=` is a class alone. */
  function AliasEntry(id: string, name: string, record: string): (r: DesktopSpec)
    ensures r.appId == id && !r.launchOptionFix
    ensures r.fileName == Hyphenated(r.wmClass)
    ensures '=' !in record ==> r.wmClass == record && r.appName == name
    ensures '=' in record ==> r.wmClass + "=" <= record && '=' !in r.wmClass
    ensures '=' in record ==>
              var second := Split(record[|r.wmClass| + 1..], '=')[0];
              r.appName == if second != "" then second else name
  {
    if '=' in record then
      FirstTwoFields(record, '=');
      var fields := Split(record, '=');
      var alias := if fields[1] != "" then fields[1] else name;
      DesktopSpec(Hyphenated(fields[0]), alias, id, fields[0], false)
    else
      DesktopSpec(Hyphenated(record), name, id, record, false)
  }

  /** One entry per record of a `wm_classes` list, in list order. */
  function AliasEntries(id: string, name: string, records: seq<string>): (r: seq<DesktopSpec>)
    ensures |r| == |records|
    ensures forall i :: 0 <= i < |records| ==> r[i] == AliasEntry(id, name, records[i])
  {
    seq(|records|, i requires 0 <= i < |records| => AliasEntry(id, name, records[i]))
  }

  /** `split = wm_names[game].split("=")`: the window name and, when a
      second field exists, the alternative name. */
  function WindowNames(value: string): (r: (string, string))
    ensures '=' !in value ==> r == (value, "")
    ensures '=' in value ==> r.0 + "=" <= value && '=' !in r.0
    ensures '=' in value ==> r.1 == Split(value[|r.0| + 1..], '=')[0]
  {
    if '=' in value then
      FirstTwoFields(value, '=');
      var fields := Split(value, '=');
      (fields[0], fields[1])
    else
      (value, "")
  }

  /** The body of the fix loop for game `id` with catalog name `name`.
      A `wm_names` value that is a list has no `split` and raises
      `AttributeError`, unless Steam is running and the game is skipped
      before the split. */
  function Classify(id: string, name: string, classes: Partition, names: Partition,
                    protonGames: set<string>, flags: Flags): (r: Result<Plan>)
    ensures r.Raise? ==> r.error == AttributeError
    ensures r.Ok? ==> forall k :: 0 <= k < |r.value.entries| ==> r.value.entries[k].appId == id
    ensures r.Ok? && r.value.request.Some? ==>
              r.value.counted && |r.value.entries| == 1 && r.value.entries[0].launchOptionFix
  {
    var fileName := Hyphenated(name);
    if id in protonGames || (flags.single != "" && flags.proton) then
      Ok(Plan([DesktopSpec(fileName, name, id, ProtonClass(id), false)], None, false))
    else if HasKey(classes, id) then
      match Get(classes, id).value
      case List(records) => Ok(Plan(AliasEntries(id, name, records), None, false))
      case Str(wmClass) => Ok(Plan([DesktopSpec(fileName, name, id, wmClass, false)], None, false))
    else if HasKey(names, id) then
      if flags.steamDetected then Ok(Plan([], None, true))
      else
        match Get(names, id).value
        case List(_) => Raise(AttributeError)
        case Str(value) =>
          var (primary, alt) := WindowNames(value);
          var wmClass := if alt != "" then alt else primary;
          Ok(Plan([DesktopSpec(fileName, name, id, wmClass, true)], Some((primary, alt)), true))
    else
      Ok(Plan([], None, false))
  }

  /** A Proton game (or any game under `--single` with `--proton`) gets
      exactly one entry with class `steam_app_<id>` and its catalog name,
      whatever the database says about it. */
  lemma ProtonTakesPrecedence(id: string, name: string, classes: Partition, names: Partition,
                              protonGames: set<string>, flags: Flags)
    requires id in protonGames || (flags.single != "" && flags.proton)
    ensures Classify(id, name, classes, names, protonGames, flags).Ok?
    ensures var plan := Classify(id, name, classes, names, protonGames, flags).value;
            && |plan.entries| == 1 && plan.entries[0].wmClass == "steam_app_" + id
            && plan.entries[0].appName == name && plan.entries[0].appId == id
            && plan.request == None && !plan.counted
  {
  }

  /** A game that is neither Proton nor in either partition produces
      nothing. */
  lemma UnknownGameProducesNothing(id: string, name: string, classes: Partition, names: Partition,
                                   protonGames: set<string>, flags: Flags)
    requires id !in protonGames && !(flags.single != "" && flags.proton)
    requires forall i :: 0 <= i < |classes| ==> classes[i].0 != id
    requires forall i :: 0 <= i < |names| ==> names[i].0 != id
    ensures Classify(id, name, classes, names, protonGames, flags) == Ok(Plan([], None, false))
  {
  }

  /** A `wm_classes` list gives one entry per record, in order, and the
      `wm_names` partition is not consulted. */
  lemma ClassListGivesAliases(id: string, name: string, classes: Partition, names: Partition,
                              protonGames: set<string>, flags: Flags, records: seq<string>)
    requires id !in protonGames && !(flags.single != "" && flags.proton)
    requires Get(classes, id) == Some(List(records))
    ensures var r := Classify(id, name, classes, names, protonGames, flags);
            && r.Ok? && r.value.request == None && !r.value.counted
            && |r.value.entries| == |records|
            && forall i :: 0 <= i < |records| ==> r.value.entries[i] == AliasEntry(id, name, records[i])
  {
  }

  /** A plain `wm_classes` string is the class itself, and the file is named
      after the catalog name, not after the class. */
  lemma ClassStringUsesCatalogName(id: string, name: string, classes: Partition, names: Partition,
                                   protonGames: set<string>, flags: Flags, wmClass: string)
    requires id !in protonGames && !(flags.single != "" && flags.proton)
    requires Get(classes, id) == Some(Str(wmClass))
    ensures Classify(id, name, classes, names, protonGames, flags)
         == Ok(Plan([DesktopSpec(Hyphenated(name), name, id, wmClass, false)], None, false))
  {
  }

  /** A `wm_names` string asks for a launch-option fix with its first field
      and (possibly empty) second field, and creates one marked entry whose
      class is the second field if it is non-empty, else the first. */
  lemma NamesStringRequestsFix(id: string, name: string, classes: Partition, names: Partition,
                               protonGames: set<string>, flags: Flags, value: string)
    requires id !in protonGames && !(flags.single != "" && flags.proton)
    requires !HasKey(classes, id) && Get(names, id) == Some(Str(value)) && !flags.steamDetected
    ensures var r := Classify(id, name, classes, names, protonGames, flags);
            && r.Ok? && r.value.counted && r.value.request.Some?
            && var (primary, alt) := r.value.request.value;
            && (primary == value || (primary + "=" <= value && '=' !in primary))
            && (alt != "" ==> '=' in value)
            && r.value.entries == [DesktopSpec(Hyphenated(name), name, id, if alt != "" then alt else primary, true)]
    ensures Classify(id, name, classes, names, protonGames, flags).value.request == Some(WindowNames(value))
  {
  }

  /** While Steam is running a `wm_names` game is counted and skipped, even
      when its record could not be split. */
  lemma RunningSteamSkipsNamesFix(id: string, name: string, classes: Partition, names: Partition,
                                  protonGames: set<string>, flags: Flags)
    requires id !in protonGames && !(flags.single != "" && flags.proton)
    requires !HasKey(classes, id) && HasKey(names, id) && flags.steamDetected
    ensures Classify(id, name, classes, names, protonGames, flags) == Ok(Plan([], None, true))
  {
  }

  /** Only a `wm_names` list, reached with Steam not running, makes the loop
      raise; every other game is planned. */
  lemma ClassifyRaisesOnlyOnNamesList(id: string, name: string, classes: Partition, names: Partition,
                                      protonGames: set<string>, flags: Flags)
    ensures Classify(id, name, classes, names, protonGames, flags).Raise? <==>
              && id !in protonGames && !(flags.single != "" && flags.proton)
              && !HasKey(classes, id) && HasKey(names, id) && !flags.steamDetected
              && Get(names, id).value.List?
    ensures Classify(id, name, classes, names, protonGames, flags).Raise? ==>
              Classify(id, name, classes, names, protonGames, flags).error == AttributeError
  {
  }

  /** Only `wm_names` games are counted, and a game with a launch-option
      request is always counted. */
  lemma RequestIsCounted(id: string, name: string, classes: Partition, names: Partition,
                         protonGames: set<string>, flags: Flags)
    requires Classify(id, name, classes, names, protonGames, flags).Ok?
    ensures var plan := Classify(id, name, classes, names, protonGames, flags).value;
            && (plan.request.Some? ==> plan.counted)
            && (plan.counted ==> HasKey(names, id) && !HasKey(classes, id))
  {
  }
}
