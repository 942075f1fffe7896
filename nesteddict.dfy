/** Lookups in loaded VDF trees: `get_from_dict` (a nested lookup with a
    lower-case fallback) and the detection of games that run under Proton,
    read from `CompatToolMapping` in Steam's `config.vdf`. */
module NestedDict {
  import opened Wrappers
  import opened PyStrings

  /** A value of a loaded VDF tree: a string or a dictionary. */
  datatype Tree = Leaf(text: string) | Dict(entries: map<string, Tree>)

  /** What `get_from_dict` does: return the value it reached, return its
      `default` argument, or raise. */
  datatype Lookup = Found(value: Tree) | Default | Raised(error: PyError)

  /** One turn of the lookup loop.  On a dictionary: the exact key, else
      `key.lower()`, else the default.  On a string, `key in current` is a
      substring test and a hit makes `current[key]` raise `TypeError`. */
  function Step(current: Tree, key: string): (r: Lookup)
    ensures r.Raised? ==> current.Leaf? && r.error == TypeError
    ensures r.Found? ==> current.Dict? && r.value in current.entries.Values
  {
    match current
    case Dict(m) =>
      if key in m then Found(m[key])
      else if Lower(key) in m then Found(m[Lower(key)])
      else Default
    case Leaf(s) =>
      if Contains(s, key) || Contains(s, Lower(key)) then Raised(TypeError) else Default
  }

  /** The lookup along a whole key path, one step per key, in order. */
  function Walk(data: Tree, keys: seq<string>): (r: Lookup)
    ensures keys == [] ==> r == Found(data)
    ensures r.Raised? ==> r.error == TypeError
    decreases |keys|
  {
    if keys == [] then Found(data)
    else
      match Step(data, keys[0])
      case Found(next) => Walk(next, keys[1..])
      case stop => stop
  }

  /** `get_from_dict(data, keys, default)`. */
  method GetFromDict(data: Tree, keys: seq<string>) returns (r: Lookup)
    ensures r == Walk(data, keys)
  {
    var current := data;
    for i := 0 to |keys|
      invariant Walk(data, keys) == Walk(current, keys[i..])
    {
      var key := keys[i];
      assert keys[i..][1..] == keys[i + 1..];
      match current
      case Dict(m) =>
        if key in m {
          current := m[key];
        } else if Lower(key) in m {
          current := m[Lower(key)];
        } else {
          return Default;
        }
      case Leaf(s) =>
        if Contains(s, key) || Contains(s, Lower(key)) {
          return Raised(TypeError);
        } else {
          return Default;
        }
    }
    return Found(current);
  }

  /** Looking up `a + b` is looking up `a`, then `b` from where `a` ended;
      a default or an exception on `a` ends the lookup. */
  lemma {:induction false} WalkAppend(data: Tree, a: seq<string>, b: seq<string>)
    ensures Walk(data, a + b) ==
              match Walk(data, a)
              case Found(t) => Walk(t, b)
              case stop => stop
    decreases |a|
  {
    if a != [] {
      assert (a + b)[0] == a[0];
      assert (a + b)[1..] == a[1..] + b;
      match Step(data, a[0])
      case Found(next) => WalkAppend(next, a[1..], b);
      case _ =>
    } else {
      assert a + b == b;
    }
  }

  /** The key preference of one lookup step. */
  lemma ExactKeyFirst(m: map<string, Tree>, key: string, rest: seq<string>)
    ensures key in m ==> Walk(Dict(m), [key] + rest) == Walk(m[key], rest)
    ensures key !in m && Lower(key) in m ==>
              Walk(Dict(m), [key] + rest) == Walk(m[Lower(key)], rest)
    ensures key !in m && Lower(key) !in m ==> Walk(Dict(m), [key] + rest) == Default
  {
    assert ([key] + rest)[1..] == rest;
  }

  /** `any(x in name for x in ["proton", "Proton"])` for the value `name`
      that `get_from_dict(game_dict, ["Name"], [])` gives: a substring test
      on a string, a key test on a dictionary, false on the `[]` default. */
  function MentionsProton(name: Lookup): Result<bool>
  {
    match name
    case Found(Leaf(s)) => Ok(Contains(s, "proton") || Contains(s, "Proton"))
    case Found(Dict(m)) => Ok("proton" in m || "Proton" in m)
    case Default => Ok(false)
    case Raised(e) => Raise(e)
  }

  const CompatToolMappingPath: seq<string> :=
    ["InstallConfigStore", "Software", "Valve", "Steam", "CompatToolMapping"]

  /** `for game in games_with_compat: games_with_compat[game]`: iterating a
      non-empty string and indexing it with a character raises `TypeError`;
      a missing mapping is the `{}` default. */
  function CompatEntries(mapping: Lookup): Result<map<string, Tree>>
  {
    match mapping
    case Found(Dict(m)) => Ok(m)
    case Found(Leaf(s)) => if s == "" then Ok(map[]) else Raise(TypeError)
    case Default => Ok(map[])
    case Raised(e) => Raise(e)
  }

  /** Whether one `CompatToolMapping` entry names a Proton tool. */
  function EntryMentionsProton(entry: Tree): Result<bool>
  {
    MentionsProton(Walk(entry, ["Name"]))
  }

  /** The Proton games among the entries of `CompatToolMapping`, or the
      exception the loop raises. */
  function ProtonGamesOf(compat: map<string, Tree>): Result<set<string>>
  {
    if exists g | g in compat :: EntryMentionsProton(compat[g]).Raise? then
      Raise(TypeError)
    else
      Ok(set g | g in compat && EntryMentionsProton(compat[g]) == Ok(true))
  }

  /** The set `proton_games` read from Steam's `config.vdf`. */
  function ProtonGameSet(config: Tree): Result<set<string>>
  {
    match CompatEntries(Walk(config, CompatToolMappingPath))
    case Raise(e) => Raise(e)
    case Ok(compat) => ProtonGamesOf(compat)
  }

  /** The loop that collects `proton_games`. */
  method DetectProtonGames(config: Tree) returns (r: Result<set<string>>)
    ensures r == ProtonGameSet(config)
  {
    var mapping := GetFromDict(config, CompatToolMappingPath);
    var entries := CompatEntries(mapping);
    if entries.Raise? {
      return Raise(entries.error);
    }
    r := CollectProtonGames(entries.value);
  }

  method CollectProtonGames(compat: map<string, Tree>) returns (r: Result<set<string>>)
    ensures r == ProtonGamesOf(compat)
  {
    var found: set<string> := {};
    var todo := compat.Keys;
    ghost var done: set<string> := {};
    while todo != {}
      invariant done == compat.Keys - todo && todo <= compat.Keys
      invariant forall g :: g in done ==> EntryMentionsProton(compat[g]).Ok?
      invariant found == set g | g in done && EntryMentionsProton(compat[g]) == Ok(true)
      decreases todo
    {
      var game :| game in todo;
      var name := GetFromDict(compat[game], ["Name"]);
      var mentions := MentionsProton(name);
      if mentions.Raise? {
        assert EntryMentionsProton(compat[game]).Raise?;
        return Raise(TypeError);
      }
      ghost var before := found;
      if mentions.value {
        found := found + {game};
      }
      todo := todo - {game};
      done := done + {game};
      assert found == set g | g in done && EntryMentionsProton(compat[g]) == Ok(true) by {
        assert forall g :: g in found <==> g in before || (g == game && mentions == Ok(true));
      }
    }
    assert done == compat.Keys;
    assert !exists g | g in compat :: EntryMentionsProton(compat[g]).Raise?;
    return Ok(found);
  }

  /** A game whose mapping entry has a string `Name` is a Proton game
      exactly when that name contains "proton" or "Proton". */
  lemma ProtonByName(config: Tree, game: string, entry: map<string, Tree>, name: string)
    requires CompatEntries(Walk(config, CompatToolMappingPath)).Ok?
    requires var compat := CompatEntries(Walk(config, CompatToolMappingPath)).value;
             game in compat && compat[game] == Dict(entry)
    requires "Name" in entry && entry["Name"] == Leaf(name)
    requires ProtonGameSet(config).Ok?
    ensures game in ProtonGameSet(config).value <==> Contains(name, "proton") || Contains(name, "Proton")
  {
    assert Walk(Dict(entry), ["Name"]) == Found(Leaf(name)) by {
      ExactKeyFirst(entry, "Name", []);
      assert ["Name"] + [] == ["Name"];
    }
  }

  /** An entry with neither `Name` nor `name` never marks a Proton game. */
  lemma NamelessEntryIsNotProton(config: Tree, game: string, entry: map<string, Tree>)
    requires CompatEntries(Walk(config, CompatToolMappingPath)).Ok?
    requires var compat := CompatEntries(Walk(config, CompatToolMappingPath)).value;
             game in compat && compat[game] == Dict(entry)
    requires "Name" !in entry && "name" !in entry
    requires ProtonGameSet(config).Ok?
    ensures game !in ProtonGameSet(config).value
  {
    var compat := CompatEntries(Walk(config, CompatToolMappingPath)).value;
    NamelessEntryMentionsNothing(entry);
    assert ProtonGameSet(config) == ProtonGamesOf(compat);
    NotMentioningIsNotProton(compat, game);
  }

  lemma NamelessEntryMentionsNothing(entry: map<string, Tree>)
    requires "Name" !in entry && "name" !in entry
    ensures EntryMentionsProton(Dict(entry)) == Ok(false)
  {
    assert Lower("Name") == "name";
    ExactKeyFirst(entry, "Name", []);
    assert ["Name"] + [] == ["Name"];
  }

  lemma NotMentioningIsNotProton(compat: map<string, Tree>, game: string)
    requires game in compat && EntryMentionsProton(compat[game]) == Ok(false)
    requires ProtonGamesOf(compat).Ok?
    ensures game !in ProtonGamesOf(compat).value
  {
  }
}
