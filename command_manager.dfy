/**
 * The command registry: a set of accepted prefixes (`mapart`, `mp`, ...)
 * and a table from trigger word to command, both keyed case-insensitively
 * by storing lowered keys. What a command's `execute` does is an outcome
 * parameter of `Dispatch`.
 */
module CommandManager {
  import opened Wrappers
  import opened Text

  /** A command object: its name and its trigger words. */
  datatype Command = Command(name: string, identifier: seq<string>)

  /**
   * The `task` object a command runs with: `{...context, content: args, bot}`; the
   * `content` and `bot` fields take precedence over any in the context.
   */
  datatype Task = Task(context: map<string, string>, content: seq<string>, bot: nat)

  datatype Dispatched =
    | Unhandled                                       // returns false
    | Executed(cmd: Command, task: Task)              // returns true
    | Raised(cmd: Command, task: Task, error: string) // the command's error, rethrown

  function LowerAll(ids: seq<string>): set<string> {
    set id | id in ids :: Lower(id)
  }

  class Manager {
    var commands: map<string, Command>
    var prefixes: set<string>

    constructor ()
      ensures commands == map[] && prefixes == {}
    {
      commands := map[];
      prefixes := {};
    }

    /** `registerPrefix` with a single string. */
    method RegisterPrefix(p: string)
      modifies this
      ensures prefixes == old(prefixes) + {Lower(p)} && commands == old(commands)
    {
      prefixes := prefixes + {Lower(p)};
    }

    /** `registerPrefix` with an array: every entry, lowered. */
    method RegisterPrefixes(ps: seq<string>)
      modifies this
      ensures prefixes == old(prefixes) + LowerAll(ps) && commands == old(commands)
    {
      for i := 0 to |ps|
        invariant prefixes == old(prefixes) + LowerAll(ps[..i]) && commands == old(commands)
      {
        assert LowerAll(ps[..i + 1]) == LowerAll(ps[..i]) + {Lower(ps[i])} by {
          assert ps[..i + 1] == ps[..i] + [ps[i]];
        }
        RegisterPrefix(ps[i]);
      }
      assert ps[..|ps|] == ps;
    }

    /**
     * `registerCommand`: every lowered trigger word now maps to `cmd`,
     * replacing an earlier command under that word; other words keep theirs.
     */
    method RegisterCommand(cmd: Command)
      modifies this
      ensures commands.Keys == old(commands).Keys + LowerAll(cmd.identifier)
      ensures forall k | k in LowerAll(cmd.identifier) :: commands[k] == cmd
      ensures forall k | k in old(commands) && k !in LowerAll(cmd.identifier) :: commands[k] == old(commands)[k]
      ensures prefixes == old(prefixes)
    {
      for i := 0 to |cmd.identifier|
        invariant commands.Keys == old(commands).Keys + LowerAll(cmd.identifier[..i])
        invariant forall k | k in LowerAll(cmd.identifier[..i]) :: commands[k] == cmd
        invariant forall k | k in old(commands) && k !in LowerAll(cmd.identifier[..i]) :: commands[k] == old(commands)[k]
        invariant prefixes == old(prefixes)
      {
        assert LowerAll(cmd.identifier[..i + 1]) == LowerAll(cmd.identifier[..i]) + {Lower(cmd.identifier[i])} by {
          assert cmd.identifier[..i + 1] == cmd.identifier[..i] + [cmd.identifier[i]];
        }
        commands := commands[Lower(cmd.identifier[i]) := cmd];
      }
      assert cmd.identifier[..|cmd.identifier|] == cmd.identifier;
    }

    /** `isPrefix`: a case-insensitive membership test; an absent prefix is not one. */
    method IsPrefix(p: Option<string>) returns (b: bool)
      ensures b <==> p.Some? && Lower(p.value) in prefixes
    {
      b := p.Some? && Lower(p.value) in prefixes;
    }

    /**
     * `dispatch`: the first argument, lowered, selects the command, which
     * runs once with the full argument list; `raises(cmd)` is the error its
     * `execute` throws, if any.
     */
    method Dispatch(bot: nat, args: seq<string>, context: map<string, string>, raises: Command -> Option<string>)
      returns (r: Dispatched)
      ensures args == [] ==> r == Unhandled
      ensures args != [] && Lower(args[0]) !in commands ==> r == Unhandled
      ensures args != [] && Lower(args[0]) in commands ==>
                var cmd := commands[Lower(args[0])];
                && !r.Unhandled? && r.cmd == cmd && r.task == Task(context, args, bot)
                && (r.Raised? <==> raises(cmd).Some?)
                && (r.Raised? ==> r.error == raises(cmd).value)
    {
      if |args| == 0 {
        return Unhandled;
      }
      var subCommand := Lower(args[0]);
      if subCommand !in commands {
        return Unhandled;
      }
      var cmd := commands[subCommand];
      var task := Task(context, args, bot);
      match raises(cmd)
      case Some(e) => return Raised(cmd, task, e);
      case None => return Executed(cmd, task);
    }
  }
}
