/**
 * The printer registry: build strategies (`mapart`, `building`, ...) keyed
 * by name. A printer's `build` is an outcome parameter of `ExecuteBuild`.
 */
module PrinterManager {
  import opened Wrappers

  datatype Printer = Printer(name: string)

  class Manager {
    var printers: map<string, Printer>

    constructor ()
      ensures Valid() && printers == map[]
    {
      printers := map[];
    }

    /** `registerPrinter`: stored under its own name, replacing an earlier one. */
    method RegisterPrinter(p: Printer)
      requires Valid()
      modifies this
      ensures Valid() && printers == old(printers)[p.name := p]
    {
      printers := printers[p.name := p];
    }

    /** `getPrinter`: the printer registered under `name`, if any. */
    method GetPrinter(name: string) returns (r: Option<Printer>)
      requires Valid()
      ensures r.Some? <==> name in printers
      ensures r.Some? ==> r.value == printers[name] && r.value.name == name
    {
      if name in printers {
        r := Some(printers[name]);
      } else {
        r := None;
      }
    }

    /** Every printer sits under its own name. */
    ghost predicate Valid()
      reads this
    {
      forall k | k in printers :: printers[k].name == k
    }

    /**
     * `executeBuild`: an unknown name is an error; otherwise the printer's
     * `build` runs with the arguments unchanged and its result (or error)
     * is passed through.
     */
    method ExecuteBuild<A, R>(name: string, args: A, build: (Printer, A) -> Result<R, string>)
      returns (r: Result<R, string>)
      requires Valid()
      ensures name !in printers ==> r == Failure("Unsupport printer model: " + name)
      ensures name in printers ==> r == build(printers[name], args)
    {
      var printer := GetPrinter(name);
      if printer.None? {
        return Failure("Unsupport printer model: " + name);
      }
      return build(printer.value, args);
    }
  }
}
