/**
 * The per-bot printer state (`pause`, `stop`, `build_cache`), the
 * pause/resume/stop controls, and the entry points that reset `stop` and
 * hand the build to the printer registry. The state object is created on
 * first use and then shared: the printers read it through a live view.
 */
module LitematicPrinter {
  import opened Wrappers
  import opened BuildCache
  import PrinterManager

  class PrinterState {
    var pause: bool
    var stop: bool
    var buildCache: Cache

    constructor ()
      ensures !pause && !stop && buildCache == InitialCache
    {
      pause := false;
      stop := false;
      buildCache := InitialCache;
    }
  }

  /** `sharedState`: getters that read the live state, and a setter for `build_cache` that writes through. */
  class SharedState {
    const state: PrinterState

    constructor (s: PrinterState)
      ensures state == s
    {
      state := s;
    }

    function Pause(): bool
      reads this, state
    {
      state.pause
    }

    function Stop(): bool
      reads this, state
    {
      state.stop
    }

    function BuildCache(): Cache
      reads this, state
    {
      state.buildCache
    }

    method SetBuildCache(c: Cache)
      modifies state
      ensures state.buildCache == c && state.pause == old(state.pause) && state.stop == old(state.stop)
    {
      state.buildCache := c;
    }
  }

  /** The parts of a mineflayer bot the printer touches. */
  class Bot {
    var state: PrinterState?
    var sharedState: SharedState?

    constructor ()
      ensures state == null && sharedState == null
    {
      state := null;
      sharedState := null;
    }
  }

  /** `initBot`: create the state only when there is none yet. */
  method InitBot(bot: Bot)
    modifies bot
    ensures bot.state != null && bot.sharedState == old(bot.sharedState)
    ensures old(bot.state) != null ==> bot.state == old(bot.state)
    ensures old(bot.state) == null ==>
              fresh(bot.state) && !bot.state.pause && !bot.state.stop && bot.state.buildCache == InitialCache
  {
    if bot.state == null {
      bot.state := new PrinterState();
    }
  }

  /** `pause(bot, p)`: only `pause` changes. */
  method Pause(bot: Bot, p: bool)
    modifies bot, bot.state
    ensures bot.state != null && bot.state.pause == p
    ensures old(bot.state) != null ==>
              bot.state == old(bot.state) && bot.state.stop == old(bot.state.stop) && bot.state.buildCache == old(bot.state.buildCache)
    ensures old(bot.state) == null ==> fresh(bot.state) && !bot.state.stop && bot.state.buildCache == InitialCache
  {
    InitBot(bot);
    bot.state.pause := p;
  }

  /** `resume`: `pause` becomes false, nothing else changes. */
  method Resume(bot: Bot)
    modifies bot, bot.state
    ensures bot.state != null && !bot.state.pause
    ensures old(bot.state) != null ==>
              bot.state == old(bot.state) && bot.state.stop == old(bot.state.stop) && bot.state.buildCache == old(bot.state.buildCache)
    ensures old(bot.state) == null ==> fresh(bot.state) && !bot.state.stop && bot.state.buildCache == InitialCache
  {
    Pause(bot, false);
  }

  /** `stop`: `stop` becomes true, nothing else changes. */
  method Stop(bot: Bot)
    modifies bot, bot.state
    ensures bot.state != null && bot.state.stop
    ensures old(bot.state) != null ==>
              bot.state == old(bot.state) && bot.state.pause == old(bot.state.pause) && bot.state.buildCache == old(bot.state.buildCache)
    ensures old(bot.state) == null ==> fresh(bot.state) && !bot.state.pause && bot.state.buildCache == InitialCache
  {
    InitBot(bot);
    bot.state.stop := true;
  }

  /** `progress_query`: the stored build cache. */
  method ProgressQuery(bot: Bot) returns (c: Cache)
    modifies bot
    ensures bot.state != null && c == bot.state.buildCache
    ensures old(bot.state) != null ==> bot.state == old(bot.state)
    ensures old(bot.state) == null ==> c == InitialCache
  {
    InitBot(bot);
    c := bot.state.buildCache;
  }

  /**
   * What a printer's run leaves behind: its result (or error) and the build
   * cache it last wrote through the view. A printer replaces the cache with
   * the one read from disk and updates it as it builds.
   */
  datatype Run<R> = Run(result: Result<R, string>, cache: Cache)

  /** The cache a build starts from: the stored one, or the initial cache on a bot with no state yet. */
  function StartCache(state: PrinterState?): Cache
    reads state
  {
    if state == null then InitialCache else state.buildCache
  }

  /**
   * `execute`: publish a live view of the state as `bot.sharedState`, then
   * run the named printer through the registry. `build(printer, args, c)`
   * is the printer's run from cache `c`; its result or error is passed
   * through, and the cache it wrote is what the state holds afterwards.
   */
  method Execute<A, R>(bot: Bot, printers: PrinterManager.Manager, model: string, args: A,
                       build: (PrinterManager.Printer, A, Cache) -> Run<R>)
    returns (r: Result<R, string>)
    requires printers.Valid()
    modifies bot, bot.state
    ensures bot.state != null && bot.sharedState != null && bot.sharedState.state == bot.state
    ensures old(bot.state) != null ==>
              bot.state == old(bot.state) && bot.state.pause == old(bot.state.pause) && bot.state.stop == old(bot.state.stop)
    ensures old(bot.state) == null ==> fresh(bot.state) && !bot.state.pause && !bot.state.stop
    ensures model !in printers.printers ==>
              r == Failure("Unsupport printer model: " + model) && bot.state.buildCache == old(StartCache(bot.state))
    ensures model in printers.printers ==>
              var run := build(printers.printers[model], args, old(StartCache(bot.state)));
              r == run.result && bot.state.buildCache == run.cache
  {
    InitBot(bot);
    var shared := new SharedState(bot.state);
    bot.sharedState := shared;
    var start := bot.state.buildCache;
    var outcome := printers.ExecuteBuild(model, (args, start),
                                         (p: PrinterManager.Printer, ac: (A, Cache)) => Success(build(p, ac.0, ac.1)));
    match outcome
    case Failure(e) =>
      r := Failure(e);
    case Success(run) =>
      shared.SetBuildCache(run.cache);
      r := run.result;
  }

  /**
   * `build_file`: a missing schematic file changes nothing and builds
   * nothing; otherwise `stop` is reset before the build runs.
   */
  method BuildFile<A, R>(bot: Bot, fileExists: bool, printers: PrinterManager.Manager, model: string, args: A,
                         build: (PrinterManager.Printer, A, Cache) -> Run<R>)
    returns (r: Option<Result<R, string>>)
    requires printers.Valid()
    modifies bot, bot.state
    ensures !fileExists ==> r.None? && bot.state == old(bot.state) && bot.sharedState == old(bot.sharedState)
    ensures !fileExists && old(bot.state) != null ==>
              bot.state.pause == old(bot.state.pause) && bot.state.stop == old(bot.state.stop)
              && bot.state.buildCache == old(bot.state.buildCache)
    ensures fileExists ==> r.Some? && BuildStarted(bot, printers, model, args, build, old(StartCache(bot.state)), r.value)
  {
    if !fileExists {
      return None;
    }
    var res := BuildProject(bot, printers, model, args, build);
    r := Some(res);
  }

  /**
   * After a build that started from cache `c0`: `stop` was reset, the view
   * is live, the printer's outcome is the result, and the state holds the
   * cache the printer left (the stored one when no printer ran).
   */
  ghost predicate BuildStarted<A, R>(bot: Bot, printers: PrinterManager.Manager, model: string, args: A,
                                     build: (PrinterManager.Printer, A, Cache) -> Run<R>, c0: Cache, r: Result<R, string>)
    reads bot, bot.state, bot.sharedState, printers
  {
    && bot.state != null && !bot.state.stop
    && bot.sharedState != null && bot.sharedState.state == bot.state
    && (model !in printers.printers ==> r == Failure("Unsupport printer model: " + model) && bot.state.buildCache == c0)
    && (model in printers.printers ==>
          r == build(printers.printers[model], args, c0).result && bot.state.buildCache == build(printers.printers[model], args, c0).cache)
  }

  /** `build_project`: `stop` is reset, then the build runs. */
  method BuildProject<A, R>(bot: Bot, printers: PrinterManager.Manager, model: string, args: A,
                            build: (PrinterManager.Printer, A, Cache) -> Run<R>)
    returns (r: Result<R, string>)
    requires printers.Valid()
    modifies bot, bot.state
    ensures BuildStarted(bot, printers, model, args, build, old(StartCache(bot.state)), r)
    ensures old(bot.state) != null ==> bot.state == old(bot.state) && bot.state.pause == old(bot.state.pause)
    ensures old(bot.state) == null ==> fresh(bot.state) && !bot.state.pause
  {
    InitBot(bot);
    bot.state.stop := false;
    r := Execute(bot, printers, model, args, build);
  }
}
