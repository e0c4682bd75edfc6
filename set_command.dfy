/**
 * The `set` command: it points a bot's mapart configuration at a
 * schematic file and, optionally, at a new placement point, refusing an X
 * that is not on a map-art grid line.
 */
module SetCommand {
  import opened Wrappers
  import opened Text
  import opened Arith

  /**
   * The `schematic` part of the configuration as `set` writes it: a
   * coordinate `parseInt` could not read is NaN, here `None`.
   */
  datatype Placement = Placement(filename: string, x: Option<int>, y: Option<int>, z: Option<int>)

  /** What the command replies. */
  datatype Reply = FileNotFound(path: Option<string>) | XMisaligned | SaveFailed | Saved

  /** The command's reply and the configuration it saves, if any. */
  datatype Outcome = Outcome(reply: Reply, saved: Option<Placement>)

  function Arg(args: seq<string>, i: nat): Option<string> {
    if i < |args| then Some(args[i]) else None
  }

  /** `parseInt(arg)` on a given argument, kept as it was when the argument is absent. */
  function Coordinate(arg: Option<string>, current: Option<int>): (r: Option<int>)
    ensures arg.None? ==> r == current
    ensures arg.Some? && arg.value != [] && AllDigits(arg.value) ==> r == Some(ParseDigits(arg.value))
  {
    match arg
    case None => current
    case Some(s) => ParseInt(s)
  }

  function Abs(n: int): nat { if n < 0 then -n else n }

  /** `Math.abs(x + 64) % 128 != 0` is false: NaN never passes. */
  predicate XCheckPasses(x: Option<int>) {
    x.Some? && Abs(x.value + 64) % 128 == 0
  }

  /** The check admits exactly the X coordinates 64 past a multiple of 128, negative ones included. */
  lemma XCheckIff(x: int)
    ensures XCheckPasses(Some(x)) <==> x % 128 == 64
  {
    var q := (x + 64) / 128;
    var r := (x + 64) % 128;
    assert x + 64 == 128 * q + r;
    if x + 64 < 0 {
      var a := -(x + 64);
      assert a % 128 == 0 <==> r == 0 by {
        if r == 0 {
          assert a == 128 * (-q);
        } else {
          assert a == 128 * (-q - 1) + (128 - r);
        }
      }
    }
    if r < 64 {
      DivModUnique(x, 128, q - 1, r + 64);
    } else {
      DivModUnique(x, 128, q, r - 64);
    }
  }

  /**
   * `set <path> [x] [y] [z]`: the file must exist; the name is then set,
   * each coordinate given is parsed, and a given X must pass the grid check
   * before anything is saved. `saves` says whether writing the file
   * succeeds.
   */
  function Set(args: seq<string>, current: Placement, fileExists: string -> bool, saves: bool): (o: Outcome)
    ensures o.saved.Some? <==> o.reply == Saved
    ensures Arg(args, 1).None? || !fileExists(Arg(args, 1).value) ==> o == Outcome(FileNotFound(Arg(args, 1)), None)
    ensures o.saved.Some? ==>
              && Arg(args, 1) == Some(o.saved.value.filename) && fileExists(o.saved.value.filename)
              && o.saved.value.x == Coordinate(Arg(args, 2), current.x)
              && o.saved.value.y == Coordinate(Arg(args, 3), current.y)
              && o.saved.value.z == Coordinate(Arg(args, 4), current.z)
    ensures o.saved.Some? && |args| > 2 ==> XCheckPasses(o.saved.value.x)
    ensures o.reply == XMisaligned <==> |args| > 2 && Arg(args, 1).Some? && fileExists(args[1]) && !XCheckPasses(ParseInt(args[2]))
    ensures o.reply == SaveFailed <==> !saves && Arg(args, 1).Some? && fileExists(args[1]) && (|args| > 2 ==> XCheckPasses(ParseInt(args[2])))
  {
    var path := Arg(args, 1);
    if path.None? || !fileExists(path.value) then Outcome(FileNotFound(path), None)
    else
      var p := Placement(path.value,
                         Coordinate(Arg(args, 2), current.x),
                         Coordinate(Arg(args, 3), current.y),
                         Coordinate(Arg(args, 4), current.z));
      if Arg(args, 2).Some? && !XCheckPasses(p.x) then Outcome(XMisaligned, None)
      else if !saves then Outcome(SaveFailed, None)
      else Outcome(Saved, Some(p))
  }

  /** Without a new X, an X already on the grid stays on it. */
  lemma SetKeepsAlignment(args: seq<string>, current: Placement, fileExists: string -> bool)
    requires XCheckPasses(current.x)
    requires Set(args, current, fileExists, true).saved.Some?
    ensures XCheckPasses(Set(args, current, fileExists, true).saved.value.x)
  {
  }
}
