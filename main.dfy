/**
 * The process that runs several bots: where the configuration file is
 * found, how the per-bot configurations are derived from it, the map of
 * running bot instances (keyed by bot id) that a start and a reload keep
 * in step with the configuration, and the console focus.
 */
module Main {
  import opened Wrappers
  import opened Text
  import opened Json
  import BotInstance

  // ---------------------------------------------------------------------
  // Where the configuration file is.
  // ---------------------------------------------------------------------

  const ConfigFlag := "--config="

  /** The text of `s` up to its first `=` (all of it when there is none). */
  function UpToEquals(s: string): (r: string)
    ensures r <= s && forall k | 0 <= k < |r| :: r[k] != '='
    ensures |r| < |s| ==> s[|r|] == '='
  {
    if s == [] || s[0] == '=' then [] else [s[0]] + UpToEquals(s[1..])
  }

  /** The first command-line argument that starts with `--config=`. */
  function ConfigArg(argv: seq<string>): (r: Option<string>)
    ensures r.Some? ==> r.value in argv && ConfigFlag <= r.value
    ensures r.None? ==> forall i | 0 <= i < |argv| :: !(ConfigFlag <= argv[i])
  {
    if argv == [] then None
    else if ConfigFlag <= argv[0] then Some(argv[0])
    else ConfigArg(argv[1..])
  }

  /** The chosen path: a text that `path.resolve` turns into an absolute path, or a default candidate. */
  datatype ConfigPath = Resolved(raw: string) | Default(path: string)

  /** `path.join(dir, 'config.json')`, without the normalisation of `..` and separators. */
  function InDir(dir: string): string {
    dir + "/config.json"
  }

  /** The places a configuration file is looked for: a packaged executable looks beside itself first. */
  function Candidates(packaged: bool, execDir: string, cwd: string, projectRoot: string): (r: seq<string>)
    ensures |r| >= 2 && r[0] == (if packaged then InDir(execDir) else InDir(projectRoot))
  {
    if packaged then [InDir(execDir), InDir(cwd)]
    else [InDir(projectRoot), InDir(cwd), InDir(execDir)]
  }

  function FirstExisting(cands: seq<string>, exists_: string -> bool): (r: Option<nat>)
    ensures r.Some? ==> r.value < |cands| && exists_(cands[r.value])
    ensures forall i | 0 <= i < (if r.Some? then r.value else |cands|) :: !exists_(cands[i])
  {
    if cands == [] then None
    else if exists_(cands[0]) then Some(0)
    else match FirstExisting(cands[1..], exists_)
      case None => None
      case Some(i) => Some(i + 1)
  }

  /** `resolveDefaultConfigPath`: the first candidate that exists, else the first candidate. */
  function DefaultConfigPath(cands: seq<string>, exists_: string -> bool): (r: string)
    requires cands != []
    ensures r in cands
    ensures exists_(r) ==> exists i | 0 <= i < |cands| :: cands[i] == r && forall j | 0 <= j < i :: !exists_(cands[j])
    ensures !exists_(r) ==> r == cands[0] && forall i | 0 <= i < |cands| :: !exists_(cands[i])
  {
    match FirstExisting(cands, exists_)
    case Some(i) => cands[i]
    case None => cands[0]
  }

  /**
   * `getConfigPath`: a `--config=` argument wins (its value being the text
   * between the first and the second `=`), then a non-empty
   * `BOT_CONFIG_PATH`, then the default.
   */
  function GetConfigPath(argv: seq<string>, env: Option<string>, cands: seq<string>, exists_: string -> bool): (r: ConfigPath)
    requires cands != []
    ensures ConfigArg(argv).Some? ==> r == Resolved(UpToEquals(ConfigArg(argv).value[|ConfigFlag|..]))
    ensures ConfigArg(argv).None? && env.Some? && env.value != "" ==> r == Resolved(env.value)
    ensures ConfigArg(argv).None? && (env.None? || env.value == "") ==> r == Default(DefaultConfigPath(cands, exists_))
  {
    match ConfigArg(argv)
    case Some(a) => Resolved(UpToEquals(a[|ConfigFlag|..]))
    case None =>
      if env.Some? && env.value != "" then Resolved(env.value)
      else Default(DefaultConfigPath(cands, exists_))
  }

  /** A `--config=p` argument selects `p` whatever the environment, when `p` has no `=`. */
  lemma ConfigArgSelects(argv: seq<string>, p: string, env: Option<string>, cands: seq<string>, exists_: string -> bool)
    requires cands != [] && ConfigArg(argv) == Some(ConfigFlag + p)
    requires forall k | 0 <= k < |p| :: p[k] != '='
    ensures GetConfigPath(argv, env, cands, exists_) == Resolved(p)
  {
    assert (ConfigFlag + p)[|ConfigFlag|..] == p;
    UpToEqualsWhole(p);
  }

  lemma {:induction false} UpToEqualsWhole(p: string)
    requires forall k | 0 <= k < |p| :: p[k] != '='
    ensures UpToEquals(p) == p
  {
    if p != [] {
      UpToEqualsWhole(p[1..]);
      assert [p[0]] + p[1..] == p;
    }
  }

  /** A second `=` cuts the path short: `--config=a=b` selects `a`. */
  lemma ConfigArgStopsAtEquals(argv: seq<string>, a: string, b: string, env: Option<string>, cands: seq<string>, exists_: string -> bool)
    requires cands != [] && ConfigArg(argv) == Some(ConfigFlag + a + "=" + b)
    requires forall k | 0 <= k < |a| :: a[k] != '='
    ensures GetConfigPath(argv, env, cands, exists_) == Resolved(a)
  {
    var v := a + "=" + b;
    assert (ConfigFlag + a + "=" + b)[|ConfigFlag|..] == v;
    UpToEqualsPrefix(a, b);
  }

  lemma {:induction false} UpToEqualsPrefix(a: string, b: string)
    requires forall k | 0 <= k < |a| :: a[k] != '='
    ensures UpToEquals(a + "=" + b) == a
  {
    if a != [] {
      UpToEqualsPrefix(a[1..], b);
      assert (a + "=" + b)[1..] == a[1..] + "=" + b;
      assert [a[0]] + a[1..] == a;
    }
  }

  // ---------------------------------------------------------------------
  // Per-bot configurations and ids.
  // ---------------------------------------------------------------------

  /** The own properties an object spread contributes (only objects are modelled). */
  function Spread(v: Json): Config {
    if v.Obj? then v.fields else map[]
  }

  /** `{...global, ...own}`: every global property, overridden by the bot's own. */
  function Merge(global: Config, own: Json): (r: Config)
    ensures r.Keys == global.Keys + Spread(own).Keys
    ensures forall k | k in Spread(own) :: r[k] == Spread(own)[k]
    ensures forall k | k in global && k !in Spread(own) :: r[k] == global[k]
  {
    global + Spread(own)
  }

  /** `getBotConfigs`: with a `bots` array, one merged configuration per entry; otherwise the whole file as the only bot. */
  function BotConfigs(full: Config): (r: seq<Config>)
    ensures "bots" in full && full["bots"].Arr? ==>
              |r| == |full["bots"].items| && forall i | 0 <= i < |r| :: r[i] == Merge(full, full["bots"].items[i])
    ensures !("bots" in full && full["bots"].Arr?) ==> r == [full]
  {
    if "bots" in full && full["bots"].Arr? then
      var items := full["bots"].items;
      seq(|items|, i requires 0 <= i < |items| => Merge(full, items[i]))
    else [full]
  }

  /** The key a configuration is filed under: `cfg.id || cfg.username`, when that is truthy. */
  function Key(cfg: Config): (r: Option<Json>)
    ensures r.Some? <==> Truthy(Get(cfg, "id")) || Truthy(Get(cfg, "username"))
    ensures r.Some? ==> Some(r.value) == BotInstance.Id(cfg)
  {
    var id := BotInstance.Id(cfg);
    if Truthy(id) then id else None
  }

  /** A bot entry without its own `id` or `username` is filed under the file's global ones. */
  lemma InheritedKey(full: Config, own: Json)
    requires "id" !in Spread(own) && "username" !in Spread(own)
    ensures Key(Merge(full, own)) == Key(full)
  {
  }

  /** The keys of a list of configurations. */
  function Keys(cs: seq<Config>): set<Json>
    decreases |cs|
  {
    if cs == [] then {}
    else Keys(cs[..|cs| - 1]) + (var k := Key(cs[|cs| - 1]); if k.Some? then {k.value} else {})
  }

  lemma {:induction false} KeysSpec(cs: seq<Config>, id: Json)
    ensures id in Keys(cs) <==> exists i | 0 <= i < |cs| :: Key(cs[i]) == Some(id)
    decreases |cs|
  {
    if cs != [] {
      var init := cs[..|cs| - 1];
      KeysSpec(init, id);
      if exists i | 0 <= i < |cs| :: Key(cs[i]) == Some(id) {
        var i :| 0 <= i < |cs| && Key(cs[i]) == Some(id);
        if i < |cs| - 1 {
          assert Key(init[i]) == Some(id);
        }
      }
      if exists i | 0 <= i < |init| :: Key(init[i]) == Some(id) {
        var i :| 0 <= i < |init| && Key(init[i]) == Some(id);
        assert Key(cs[i]) == Some(id);
      }
    }
  }

  /** The last configuration filed under `id`: the one a bot with that id ends up with. */
  function LastWith(cs: seq<Config>, id: Json): (r: Option<Config>)
    ensures r.Some? <==> id in Keys(cs)
    ensures r.Some? ==> Key(r.value) == Some(id)
    decreases |cs|
  {
    if cs == [] then None
    else if Key(cs[|cs| - 1]) == Some(id) then Some(cs[|cs| - 1])
    else LastWith(cs[..|cs| - 1], id)
  }

  /** The key of the first configuration that has one. */
  function FirstKey(cs: seq<Config>): (r: Option<Json>)
    ensures r.Some? ==> r.value in Keys(cs)
  {
    if cs == [] then None
    else if Key(cs[0]).Some? then (KeysFirst(cs); Key(cs[0]))
    else (var r := FirstKey(cs[1..]); if r.Some? then KeysTail(cs); r else r)
  }

  lemma KeysFirst(cs: seq<Config>)
    requires cs != [] && Key(cs[0]).Some?
    ensures Key(cs[0]).value in Keys(cs)
  {
    KeysSpec(cs, Key(cs[0]).value);
  }

  lemma KeysTail(cs: seq<Config>)
    requires cs != []
    ensures Keys(cs[1..]) <= Keys(cs)
  {
    forall id | id in Keys(cs[1..])
      ensures id in Keys(cs)
    {
      KeysSpec(cs[1..], id);
      var i :| 0 <= i < |cs[1..]| && Key(cs[1..][i]) == Some(id);
      assert Key(cs[i + 1]) == Some(id);
      KeysSpec(cs, id);
    }
  }

  lemma KeysSnoc(cs: seq<Config>, c: Config)
    ensures Keys(cs + [c]) == Keys(cs) + (if Key(c).Some? then {Key(c).value} else {})
    ensures forall id :: LastWith(cs + [c], id) == if Key(c) == Some(id) then Some(c) else LastWith(cs, id)
  {
    assert (cs + [c])[..|cs|] == cs;
  }

  lemma {:induction false} FirstKeySnoc(cs: seq<Config>, c: Config)
    ensures FirstKey(cs + [c]) == if FirstKey(cs).Some? then FirstKey(cs) else Key(c)
  {
    if cs == [] {
      assert [c][1..] == [];
    } else {
      assert (cs + [c])[1..] == cs[1..] + [c];
      FirstKeySnoc(cs[1..], c);
    }
  }

  lemma FirstKeyNone(cs: seq<Config>)
    requires FirstKey(cs).None?
    ensures Keys(cs) == {}
  {
    forall id | id in Keys(cs)
      ensures false
    {
      KeysSpec(cs, id);
      var i :| 0 <= i < |cs| && Key(cs[i]) == Some(id);
      FirstKeyAbsent(cs, i);
    }
  }

  lemma {:induction false} FirstKeyAbsent(cs: seq<Config>, i: nat)
    requires FirstKey(cs).None? && i < |cs|
    ensures Key(cs[i]).None?
  {
    if i > 0 {
      FirstKeyAbsent(cs[1..], i - 1);
    }
  }

  // ---------------------------------------------------------------------
  // The running bots.
  // ---------------------------------------------------------------------

  /** A bot instance: which object it is (`serial`) and the configuration it holds. */
  datatype Instance = Instance(serial: nat, config: Config)

  /**
   * `botInstances`, `activeBotUsername` and the configuration file's
   * contents. `stopped` records the instances that have been told to stop;
   * `nextSerial` is where the serials of new instances start.
   */
  class Bots {
    var instances: map<Json, Instance>
    var active: Option<Json>
    var fullConfig: Config
    var stopped: set<nat>
    var nextSerial: nat
    /** The id each instance was created under, by serial. */
    ghost var owner: map<nat, Json>

    /** Every instance in the map is distinct and running. */
    ghost predicate Valid()
      reads this
    {
      && (forall s | s in stopped :: s < nextSerial)
      && (forall id | id in instances ::
            && instances[id].serial < nextSerial && instances[id].serial !in stopped
            && instances[id].serial in owner && owner[instances[id].serial] == id)
    }

    /** No two ids share an instance. */
    lemma Distinct(a: Json, b: Json)
      requires Valid() && a in instances && b in instances && a != b
      ensures instances[a].serial != instances[b].serial
    {
    }

    constructor(full: Config)
      ensures Valid()
      ensures instances == map[] && active == None && fullConfig == full && stopped == {}
    {
      instances, active, fullConfig, stopped, nextSerial := map[], None, full, {}, 0;
      owner := map[];
    }

    /** A new instance for configuration `cfg` under `id`. */
    method Create(id: Json, cfg: Config)
      requires Valid()
      modifies this
      ensures Valid()
      ensures instances == old(instances)[id := Instance(old(nextSerial), cfg)]
      ensures nextSerial == old(nextSerial) + 1
      ensures active == old(active) && fullConfig == old(fullConfig) && stopped == old(stopped)
    {
      instances := instances[id := Instance(nextSerial, cfg)];
      owner := owner[nextSerial := id];
      nextSerial := nextSerial + 1;
    }

    /**
     * `startAllBots`: an instance for every configuration with a key (a
     * later configuration with the same key replaces the earlier one's
     * instance); the console focus goes to the first key when there is none.
     */
    method StartAll()
      requires Valid()
      modifies this
      ensures Valid()
      ensures fullConfig == old(fullConfig) && stopped == old(stopped)
      ensures instances.Keys == old(instances).Keys + Keys(BotConfigs(fullConfig))
      ensures forall id | id in Keys(BotConfigs(fullConfig)) ::
                instances[id].config == LastWith(BotConfigs(fullConfig), id).value && old(nextSerial) <= instances[id].serial
      ensures forall id | id in old(instances) && id !in Keys(BotConfigs(fullConfig)) :: instances[id] == old(instances)[id]
      ensures active == if old(active).Some? then old(active) else FirstKey(BotConfigs(fullConfig))
    {
      StartWith(BotConfigs(fullConfig));
    }

    /**
     * After the configurations `pre` have been started over the instances
     * `before`: each key of `pre` holds a new instance with its last
     * configuration, every other instance is untouched, and the focus is
     * the first key of `pre` when it started unset.
     */
    ghost predicate Started(pre: seq<Config>, before: map<Json, Instance>, n0: nat, active0: Option<Json>)
      reads this
    {
      && n0 <= nextSerial
      && instances.Keys == before.Keys + Keys(pre)
      && (forall id | id in Keys(pre) :: instances[id].config == LastWith(pre, id).value && n0 <= instances[id].serial)
      && (forall id | id in before && id !in Keys(pre) :: instances[id] == before[id])
      && active == (if active0.Some? then active0 else FirstKey(pre))
    }

    /** One step of the start loop. */
    method StartOne(ghost pre: seq<Config>, c: Config, ghost before: map<Json, Instance>, ghost n0: nat, ghost active0: Option<Json>)
      requires Valid() && Started(pre, before, n0, active0)
      modifies this
      ensures Valid() && Started(pre + [c], before, n0, active0)
      ensures fullConfig == old(fullConfig) && stopped == old(stopped)
    {
      KeysSnoc(pre, c);
      FirstKeySnoc(pre, c);
      var id := Key(c);
      if id.None? {
        return;
      }
      Create(id.value, c);
      if active.None? {
        active := id;
      }
    }

    method StartWith(cs: seq<Config>)
      requires Valid()
      modifies this
      ensures Valid()
      ensures fullConfig == old(fullConfig) && stopped == old(stopped)
      ensures instances.Keys == old(instances).Keys + Keys(cs)
      ensures forall id | id in Keys(cs) :: instances[id].config == LastWith(cs, id).value && old(nextSerial) <= instances[id].serial
      ensures forall id | id in old(instances) && id !in Keys(cs) :: instances[id] == old(instances)[id]
      ensures active == if old(active).Some? then old(active) else FirstKey(cs)
    {
      ghost var before, n0, active0 := instances, nextSerial, active;
      assert cs[..0] == [];
      for i := 0 to |cs|
        invariant Valid() && Started(cs[..i], before, n0, active0)
        invariant fullConfig == old(fullConfig) && stopped == old(stopped)
      {
        assert cs[..i + 1] == cs[..i] + [cs[i]];
        StartOne(cs[..i], cs[i], before, n0, active0);
      }
      assert cs[..|cs|] == cs;
    }

    /**
     * `reloadAllBots`: `read` is the configuration file as parsed, `None`
     * when it cannot be read or parsed (then nothing changes). Instances
     * whose key is gone are stopped and removed; the others keep running
     * with their new configuration; new keys get new instances. The
     * console focus is left as it was.
     */
    method Reload(read: Option<Config>)
      requires Valid()
      modifies this
      ensures Valid()
      ensures read.None? ==> instances == old(instances) && active == old(active) && fullConfig == old(fullConfig) && stopped == old(stopped)
      ensures read.Some? ==> fullConfig == read.value && active == old(active)
      ensures read.Some? ==> instances.Keys == Keys(BotConfigs(fullConfig))
      ensures read.Some? ==> forall id | id in instances :: instances[id].config == LastWith(BotConfigs(fullConfig), id).value
      ensures read.Some? ==> forall id | id in instances && id in old(instances) :: instances[id].serial == old(instances)[id].serial
      ensures read.Some? ==> forall id | id in instances && id !in old(instances) :: old(nextSerial) <= instances[id].serial
      ensures read.Some? ==> stopped == old(stopped) + set id | id in old(instances) && id !in Keys(BotConfigs(fullConfig)) :: old(instances)[id].serial
    {
      if read.None? {
        return;
      }
      fullConfig := read.value;
      var cs := BotConfigs(fullConfig);
      RemoveMissing(Keys(cs));
      UpdateOrCreate(cs);
    }

    /** The serials of the instances in `before` under the ids `gone`. */
    ghost function SerialsOf(before: map<Json, Instance>, gone: set<Json>): set<nat> {
      set id | id in before && id in gone :: before[id].serial
    }

    lemma SerialsOfAdd(before: map<Json, Instance>, gone: set<Json>, id: Json)
      requires id in before
      ensures SerialsOf(before, gone + {id}) == SerialsOf(before, gone) + {before[id].serial}
    {
    }

    /**
     * While the ids `pending` of `before` are still to be looked at: the
     * instances left are those of `before` that are pending or kept, and
     * the ones removed so far are stopped.
     */
    ghost predicate Removing(before: map<Json, Instance>, pending: set<Json>, keep: set<Json>, stopped0: set<nat>)
      reads this
    {
      && pending <= before.Keys
      && (forall id :: id in instances <==> id in before && (id in pending || id in keep))
      && (forall id | id in instances :: instances[id] == before[id])
      && stopped == stopped0 + SerialsOf(before, before.Keys - pending - keep)
    }

    /** One step of the removal loop: `id` is stopped and removed unless it is kept. */
    method RemoveOne(id: Json, keep: set<Json>, ghost before: map<Json, Instance>, ghost pending: set<Json>, ghost stopped0: set<nat>)
      requires Valid() && Removing(before, pending, keep, stopped0) && id in pending
      modifies this
      ensures Valid() && Removing(before, pending - {id}, keep, stopped0)
      ensures fullConfig == old(fullConfig) && active == old(active) && nextSerial == old(nextSerial)
    {
      assert before.Keys - (pending - {id}) - keep == (before.Keys - pending - keep) + (if id !in keep then {id} else {});
      if id !in keep {
        SerialsOfAdd(before, before.Keys - pending - keep, id);
        stopped := stopped + {instances[id].serial};
        instances := instances - {id};
      }
    }

    /** The first half of a reload: every instance whose key is not in `keep` is stopped and removed. */
    method RemoveMissing(keep: set<Json>)
      requires Valid()
      modifies this
      ensures Valid()
      ensures fullConfig == old(fullConfig) && active == old(active) && nextSerial == old(nextSerial)
      ensures instances.Keys == old(instances).Keys * keep
      ensures forall id | id in instances :: instances[id] == old(instances)[id]
      ensures stopped == old(stopped) + set id | id in old(instances) && id !in keep :: old(instances)[id].serial
    {
      ghost var before, stopped0 := instances, stopped;
      var pending := instances.Keys;
      assert before.Keys - pending - keep == {};
      while pending != {}
        invariant Valid() && Removing(before, pending, keep, stopped0)
        invariant nextSerial == old(nextSerial) && fullConfig == old(fullConfig) && active == old(active)
        decreases pending
      {
        var id :| id in pending;
        RemoveOne(id, keep, before, pending, stopped0);
        pending := pending - {id};
      }
      assert before.Keys - {} - keep == set id | id in before && id !in keep;
    }

    /**
     * After the configurations `pre` have been applied to the instances
     * `before`: each key of `pre` holds its last configuration, an instance
     * that was there keeps its identity, and a new one is new.
     */
    ghost predicate Updated(pre: seq<Config>, before: map<Json, Instance>, n0: nat)
      reads this
    {
      && n0 <= nextSerial
      && instances.Keys == before.Keys + Keys(pre)
      && (forall id | id in Keys(pre) :: instances[id].config == LastWith(pre, id).value)
      && (forall id | id in instances && id in before :: instances[id].serial == before[id].serial)
      && (forall id | id in instances && id !in before :: n0 <= instances[id].serial)
    }

    /** One step of the update loop. */
    method UpdateOne(ghost pre: seq<Config>, c: Config, ghost before: map<Json, Instance>, ghost n0: nat)
      requires Valid() && Updated(pre, before, n0)
      modifies this
      ensures Valid() && Updated(pre + [c], before, n0)
      ensures fullConfig == old(fullConfig) && active == old(active) && stopped == old(stopped)
    {
      KeysSnoc(pre, c);
      var id := Key(c);
      if id.None? {
        return;
      }
      if id.value in instances {
        Reconfigure(pre, c, before, n0);
      } else {
        Create(id.value, c);
      }
    }

    /** A running instance takes a new configuration and keeps its identity. */
    method Reconfigure(ghost pre: seq<Config>, c: Config, ghost before: map<Json, Instance>, ghost n0: nat)
      requires Valid() && Updated(pre, before, n0)
      requires Key(c).Some? && Key(c).value in instances
      modifies this
      ensures Valid() && Updated(pre + [c], before, n0)
      ensures fullConfig == old(fullConfig) && active == old(active) && stopped == old(stopped)
    {
      KeysSnoc(pre, c);
      var id := Key(c).value;
      instances := instances[id := instances[id].(config := c)];
    }

    /** The second half of a reload: each configuration with a key updates the instance under it, or creates one. */
    method UpdateOrCreate(cs: seq<Config>)
      requires Valid()
      requires instances.Keys <= Keys(cs)
      modifies this
      ensures Valid()
      ensures fullConfig == old(fullConfig) && active == old(active) && stopped == old(stopped)
      ensures instances.Keys == Keys(cs)
      ensures forall id | id in instances :: instances[id].config == LastWith(cs, id).value
      ensures forall id | id in instances && id in old(instances) :: instances[id].serial == old(instances)[id].serial
      ensures forall id | id in instances && id !in old(instances) :: old(nextSerial) <= instances[id].serial
    {
      ghost var before, n0 := instances, nextSerial;
      assert cs[..0] == [];
      for i := 0 to |cs|
        invariant Valid() && Updated(cs[..i], before, n0)
        invariant fullConfig == old(fullConfig) && active == old(active) && stopped == old(stopped)
      {
        assert cs[..i + 1] == cs[..i] + [cs[i]];
        UpdateOne(cs[..i], cs[i], before, n0);
      }
      assert cs[..|cs|] == cs;
    }

    /** The console's `!switch <id>`: the focus moves only to an id that has an instance. */
    method Switch(target: Option<string>)
      modifies this
      ensures instances == old(instances) && fullConfig == old(fullConfig) && stopped == old(stopped) && nextSerial == old(nextSerial)
      ensures target.Some? && Str(target.value) in instances ==> active == Some(Str(target.value))
      ensures !(target.Some? && Str(target.value) in instances) ==> active == old(active)
    {
      if target.Some? && Str(target.value) in instances {
        active := Some(Str(target.value));
      }
    }

    /** On exit every instance is stopped and the map is emptied. */
    method StopAll()
      requires Valid()
      modifies this
      ensures Valid()
      ensures instances == map[] && stopped == old(stopped) + set id | id in old(instances) :: old(instances)[id].serial
      ensures active == old(active) && fullConfig == old(fullConfig)
    {
      stopped := stopped + set id | id in instances :: instances[id].serial;
      instances := map[];
    }
  }

  // ---------------------------------------------------------------------
  // The console.
  // ---------------------------------------------------------------------

  /** What a console line is: nothing, a management command, or a line for the focused bot. */
  datatype ConsoleLine = Blank | List | SwitchTo(target: Option<string>) | Help | ForBot(trimmed: string)

  /**
   * A line starting with `!` whose first word (lowered) is `list`,
   * `switch`/`s` or `help` is a management command; any other non-blank
   * line goes to the focused bot.
   */
  function ParseConsole(line: string): (r: ConsoleLine)
    ensures r.Blank? <==> Trim(line) == []
    ensures r.ForBot? ==> r.trimmed == Trim(line) && r.trimmed != []
    ensures r.SwitchTo? ==> Trim(line)[0] == '!' && Lower(Words(Trim(line)[1..])[0]) in {"switch", "s"}
    ensures r.SwitchTo? ==> r.target == (var ws := Words(Trim(line)[1..]); if |ws| > 1 then Some(ws[1]) else None)
    ensures Trim(line) != [] && Trim(line)[0] != '!' ==> r == ForBot(Trim(line))
  {
    var trimmed := Trim(line);
    if trimmed == [] then Blank
    else if trimmed[0] == '!' then
      var parts := Words(trimmed[1..]);
      var cmd := Lower(parts[0]);
      if cmd == "list" then List
      else if cmd == "switch" || cmd == "s" then SwitchTo(if |parts| > 1 then Some(parts[1]) else None)
      else if cmd == "help" then Help
      else ForBot(trimmed)
    else ForBot(trimmed)
  }

  /**
   * A line for the focused bot: refused when the focus names no instance or
   * its bot is not connected; otherwise routed the way the bot's web handler
   * routes a line (chat after `.`, the mapart plugin by its name, else only
   * a hint). `connected` and `ready` say, by serial, whether an instance has
   * a bot and whether its mapart plugin is ready.
   */
  function ConsoleForward(trimmed: string, focus: Option<Json>, instances: map<Json, Instance>,
                          connected: nat -> bool, ready: nat -> bool): (r: Option<BotInstance.Route>)
    requires trimmed != []
    ensures r.None? <==> focus.None? || focus.value !in instances || !connected(instances[focus.value].serial)
    ensures r.Some? ==> r.value == BotInstance.RouteLine(trimmed, ready(instances[focus.value].serial))
    ensures r.Some? && r.value.Dispatch? ==> r.value.parts == Words(trimmed) && ready(instances[focus.value].serial)
  {
    if focus.None? || focus.value !in instances || !connected(instances[focus.value].serial) then None
    else Some(BotInstance.RouteLine(trimmed, ready(instances[focus.value].serial)))
  }

  /** A console line `.msg` for a connected focus is sent as chat, trimmed. */
  lemma ConsoleChat(msg: string, focus: Json, instances: map<Json, Instance>, connected: nat -> bool, ready: nat -> bool)
    requires focus in instances && connected(instances[focus].serial)
    requires Trim(msg) != []
    ensures ConsoleForward("." + msg, Some(focus), instances, connected, ready) == Some(BotInstance.Chat(Some(Trim(msg))))
  {
    assert ("." + msg)[1..] == msg;
  }

  /** `!switch name` names its target. */
  lemma SwitchLine(name: string)
    requires name != [] && forall k | 0 <= k < |name| :: !IsSpace(name[k])
    ensures ParseConsole("!switch " + name) == SwitchTo(Some(name))
  {
    var line := "!switch " + name;
    SwitchSplit(name);
    TrimOfUnpadded(line);
    SwitchWord();
    WordsCons("switch", ' ', name);
    WordsOfWord(name);
    assert Words(line[1..]) == ["switch", name];
  }

  /** The pieces of `!switch name`. */
  lemma SwitchSplit(name: string)
    requires name != []
    ensures var line := "!switch " + name;
      && line[0] == '!' && line[|line| - 1] == name[|name| - 1]
      && line[1..] == "switch" + [' '] + name
  {
  }

  /** The word `switch` has no whitespace and is its own lower case. */
  lemma SwitchWord()
    ensures forall j | 0 <= j < |"switch"| :: !IsSpace("switch"[j])
    ensures Lower("switch") == "switch"
  {
  }

}
