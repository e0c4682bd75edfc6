/**
 * The `build` command around the printer: the merged replacement list, the
 * flag scan (`-a`/`-auto [X_Y]`, `-n`), the build time report, and the
 * auto-next step that derives the next tile's file name from a `_X_Y`
 * suffix and re-dispatches the command for it.
 */
module BuildCommand {
  import opened Wrappers
  import opened Text
  import opened Seqs
  import opened Arith

  /** A `replaceMaterials` entry: a block name and its stand-in. */
  datatype Replace = Replace(from: string, to: string)

  /** The merged `replaceMaterials`: the global list, then the bot's own (absent lists are empty). */
  function MergeReplace(global: Option<seq<Replace>>, bot: Option<seq<Replace>>): (r: seq<Replace>)
    ensures |r| == |global.GetOr([])| + |bot.GetOr([])|
    ensures r[..|global.GetOr([])|] == global.GetOr([]) && r[|global.GetOr([])|..] == bot.GetOr([])
    ensures forall e :: e in r <==> e in global.GetOr([]) || e in bot.GetOr([])
  {
    global.GetOr([]) + bot.GetOr([])
  }

  /** `^(\d+)_(\d+)$`: two non-empty digit runs around a single `_`. */
  predicate IsIndexPair(s: string) {
    var k := IndexOf(s, '_');
    0 < k < |s| - 1 && AllDigits(s[..k]) && AllDigits(s[k + 1..])
  }

  /** An index pair begins with a digit, so it is never a flag. */
  lemma IndexPairIsNoFlag(s: string)
    requires IsIndexPair(s)
    ensures |s| > 0 && s[0] != '-'
  {
    var k := IndexOf(s, '_');
    assert s[0] == s[..k][0];
  }

  predicate IsAutoFlag(t: string) {
    t == "-a" || t == "-auto"
  }

  /**
   * The autonext value after reading tokens `[0, n)`: the token after the
   * last `-a`/`-auto` that is followed by an index pair, or empty.
   */
  function AutoValueUpTo(c: seq<string>, n: nat): string
    requires n <= |c|
  {
    if n == 0 then ""
    else if IsAutoFlag(c[n - 1]) && n < |c| && IsIndexPair(c[n]) then c[n]
    else AutoValueUpTo(c, n - 1)
  }

  lemma {:induction false} AutoValueShape(c: seq<string>, n: nat)
    requires n <= |c|
    ensures AutoValueUpTo(c, n) == "" || IsIndexPair(AutoValueUpTo(c, n))
  {
    if n > 0 && !(IsAutoFlag(c[n - 1]) && n < |c| && IsIndexPair(c[n])) {
      AutoValueShape(c, n - 1);
    }
  }

  datatype Flags = Flags(autonext: bool, autoValue: string, noWebhook: bool)

  /**
   * The flag loop: an index pair consumed by `-a` is never itself read as a
   * flag, and since it cannot start with `-` the skip hides no flag.
   */
  method ParseFlags(content: seq<string>) returns (f: Flags)
    ensures f.autonext <==> "-a" in content || "-auto" in content
    ensures f.noWebhook <==> "-n" in content
    ensures f.autoValue == AutoValueUpTo(content, |content|)
    ensures f.autoValue == "" || IsIndexPair(f.autoValue)
  {
    var autonext, value, noWebhook := false, "", false;
    var i := 0;
    while i < |content|
      invariant i <= |content|
      invariant autonext <==> "-a" in content[..i] || "-auto" in content[..i]
      invariant noWebhook <==> "-n" in content[..i]
      invariant value == AutoValueUpTo(content, i)
    {
      var t := content[i];
      assert content[..i + 1] == content[..i] + [t];
      if !(|t| > 0 && t[0] == '-') {
        i := i + 1;
        continue;
      }
      if t == "-a" || t == "-auto" {
        autonext := true;
        if i + 1 < |content| && IsIndexPair(content[i + 1]) {
          value := content[i + 1];
          IndexPairIsNoFlag(content[i + 1]);
          assert content[..i + 2] == content[..i + 1] + [content[i + 1]];
          i := i + 1;
        }
      } else if t == "-n" {
        noWebhook := true;
      }
      i := i + 1;
    }
    assert content[..i] == content;
    f := Flags(autonext, value, noWebhook);
    AutoValueShape(content, |content|);
  }

  /** A file name's base (before the extension) and its extension, if any. */
  datatype FileName = FileName(base: string, ext: Option<string>)

  /**
   * `filename.split(".")`, elements 0 and 1, as the source reads them:
   * the text before the first dot, and the text between the first and the
   * second dot.
   */
  function SplitNameAsWritten(f: string): (r: FileName)
    ensures '.' !in r.base && r.base <= f
  {
    var i := IndexOf(f, '.');
    if i < 0 then FileName(f, None)
    else
      var rest := f[i + 1..];
      var j := IndexOf(rest, '.');
      FileName(f[..i], Some(if j < 0 then rest else rest[..j]))
  }

  /** The name split at its last dot, so dots in directory names stay in the base. */
  function SplitName(f: string): (r: FileName)
    ensures r.ext.None? ==> r.base == f && '.' !in f
    ensures r.ext.Some? ==> f == r.base + "." + r.ext.value && '.' !in r.ext.value
  {
    var i := LastIndexOf(f, '.');
    if i < 0 then FileName(f, None)
    else
      var r := FileName(f[..i], Some(f[i + 1..]));
      assert f == f[..i] + "." + f[i + 1..];
      r
  }

  /** On a name with at most one dot the two splits agree. */
  lemma SplitsAgreeOnOneDot(f: string)
    requires forall i, j | 0 <= i < j < |f| :: !(f[i] == '.' && f[j] == '.')
    ensures SplitNameAsWritten(f) == SplitName(f)
  {
    var i := IndexOf(f, '.');
    if i >= 0 {
      assert LastIndexOf(f, '.') == i;
      assert '.' !in f[i + 1..];
    }
  }

  /** A `_X_Y` suffix: the rest of the name and the two digit runs. */
  datatype Suffix = Suffix(stem: string, xs: string, ys: string)

  /**
   * `/_(\d+)_(\d+)$/` on a base name. Digit runs hold no `_`, so the
   * match, when there is one, takes the last two `_` of the name.
   */
  function SplitIndex(base: string): (r: Option<Suffix>)
    ensures r.Some? ==> base == r.value.stem + "_" + r.value.xs + "_" + r.value.ys
    ensures r.Some? ==> r.value.xs != [] && r.value.ys != [] && AllDigits(r.value.xs) && AllDigits(r.value.ys)
  {
    var q := LastIndexOf(base, '_');
    if q < 0 then None
    else
      var ys := base[q + 1..];
      var rest := base[..q];
      var p := LastIndexOf(rest, '_');
      if p < 0 then None
      else
        var xs := rest[p + 1..];
        if xs == [] || ys == [] || !AllDigits(xs) || !AllDigits(ys) then None
        else
          assert rest == rest[..p] + "_" + xs;
          assert base == rest + "_" + ys;
          Some(Suffix(rest[..p], xs, ys))
  }

  /** Any name ending in `_X_Y` is recognised, with exactly that stem and those digits. */
  lemma {:induction false} SplitIndexComplete(stem: string, xs: string, ys: string)
    requires xs != [] && ys != [] && AllDigits(xs) && AllDigits(ys)
    ensures SplitIndex(stem + "_" + xs + "_" + ys) == Some(Suffix(stem, xs, ys))
  {
    var base := stem + "_" + xs + "_" + ys;
    var q := |stem| + 1 + |xs|;
    assert base[q] == '_';
    forall j | q < j < |base| ensures base[j] != '_' {
      assert base[j] == ys[j - q - 1];
    }
    LastIndexOfAt(base, '_', q);
    assert base[q + 1..] == ys;
    var rest := base[..q];
    assert rest == stem + "_" + xs;
    forall j | |stem| < j < |rest| ensures rest[j] != '_' {
      assert rest[j] == xs[j - |stem| - 1];
    }
    LastIndexOfAt(rest, '_', |stem|);
    assert rest[|stem| + 1..] == xs && rest[..|stem|] == stem;
  }

  /** The parsed name: the base with any `_X_Y` stripped, the tile index if there was one, and the extension. */
  datatype Parsed = Parsed(stem: string, index: Option<(nat, nat)>, ext: Option<string>)

  function ParseWith(n: FileName): Parsed {
    match SplitIndex(n.base)
    case None => Parsed(n.base, None, n.ext)
    case Some(s) => Parsed(s.stem, Some((ParseDigits(s.xs), ParseDigits(s.ys))), n.ext)
  }

  /** The source's parse, splitting at the first dot. */
  function ParseFileNameAsWritten(f: string): Parsed {
    ParseWith(SplitNameAsWritten(f))
  }

  /** The parse with the extension split at the last dot. */
  function ParseFileName(f: string): Parsed {
    ParseWith(SplitName(f))
  }

  /** `${base}_${x}_${y}.${type}`; a missing extension prints as `undefined`. */
  function NextFileName(stem: string, x: nat, y: nat, ext: Option<string>): string {
    stem + "_" + NatToString(x) + "_" + NatToString(y) + "." + ext.GetOr("undefined")
  }

  /**
   * The next tile's name parses back to the same stem, the new index and
   * the same extension, so auto-next can chain from tile to tile.
   */
  lemma {:induction false} NextFileNameRoundTrip(stem: string, x: nat, y: nat, ext: string)
    requires '.' !in ext
    ensures ParseFileName(NextFileName(stem, x, y, Some(ext))) == Parsed(stem, Some((x, y)), Some(ext))
  {
    var xs, ys := NatToString(x), NatToString(y);
    var base := stem + "_" + xs + "_" + ys;
    var f := NextFileName(stem, x, y, Some(ext));
    assert f == base + "." + ext;
    assert f[|base|] == '.';
    forall j | |base| < j < |f| ensures f[j] != '.' {
      assert f[j] == ext[j - |base| - 1];
    }
    LastIndexOfAt(f, '.', |base|);
    assert f[..|base|] == base && f[|base| + 1..] == ext;
    SplitIndexComplete(stem, xs, ys);
    ParseNatToString(x);
    ParseNatToString(y);
  }

  /**
   * A relative path such as `./maps/a_1_2.nbt` hides the index from the
   * source's parse: the text before its first dot is empty. Split at the
   * last dot, the same name gives back its stem and index.
   */
  lemma DottedDirectoryLosesIndex(stem: string, x: nat, y: nat, ext: string)
    requires |stem| > 0 && stem[0] == '.' && '.' !in ext
    ensures ParseFileNameAsWritten(NextFileName(stem, x, y, Some(ext))).index.None?
    ensures ParseFileName(NextFileName(stem, x, y, Some(ext))) == Parsed(stem, Some((x, y)), Some(ext))
  {
    var f := NextFileName(stem, x, y, Some(ext));
    assert f[0] == '.';
    IndexOfAt(f, '.', 0);
    assert SplitNameAsWritten(f).base == [];
    NextFileNameRoundTrip(stem, x, y, ext);
  }

  /** The tile step: `[1, 0]`, or the `X_Y` given after `-a`. */
  function Increment(autoValue: string): (nat, nat)
    requires autoValue == "" || IsIndexPair(autoValue)
  {
    if autoValue == "" then (1, 0)
    else
      var k := IndexOf(autoValue, '_');
      (ParseDigits(autoValue[..k]), ParseDigits(autoValue[k + 1..]))
  }

  /** The pair after `-a` is read as written: `X_Y` gives the step `(X, Y)`. */
  lemma IncrementReadsPair(x: nat, y: nat)
    ensures IsIndexPair(NatToString(x) + "_" + NatToString(y))
    ensures Increment(NatToString(x) + "_" + NatToString(y)) == (x, y)
  {
    var xs, ys := NatToString(x), NatToString(y);
    var s := xs + "_" + ys;
    assert s[|xs|] == '_';
    forall j | 0 <= j < |xs| ensures s[j] != '_' {
      assert s[j] == xs[j];
    }
    IndexOfAt(s, '_', |xs|);
    assert s[..|xs|] == xs && s[|xs| + 1..] == ys;
    ParseNatToString(x);
    ParseNatToString(y);
  }

  /** What the auto-next step does. */
  datatype AutoNext =
    | Off                                         // no `-a` flag
    | NoIndex                                     // the name has no `_X_Y`: reading the index throws
    | Missing(next: string)                       // the next tile's file does not exist: the run ends
    | Queued(next: string, args: seq<string>)     // the config now names `next`; `args` are dispatched later

  /** `["build", "-a", value, noWebhook ? "-n" : ""].filter(Boolean)`. */
  function RedispatchArgs(value: string, noWebhook: bool): (r: seq<string>)
    ensures forall k | 0 <= k < |r| :: r[k] != ""
  {
    ["build", "-a"] + (if value != "" then [value] else []) + (if noWebhook then ["-n"] else [])
  }

  /** The re-dispatched command reads back the same autonext value and webhook setting. */
  lemma RedispatchReparses(value: string, noWebhook: bool)
    requires value == "" || IsIndexPair(value)
    ensures var a := RedispatchArgs(value, noWebhook);
            && "-a" in a && ("-n" in a <==> noWebhook) && AutoValueUpTo(a, |a|) == value
  {
    var a := RedispatchArgs(value, noWebhook);
    if value != "" {
      IndexPairIsNoFlag(value);
      assert a[2] == value && !IsAutoFlag(a[2]);
      if noWebhook {
        assert AutoValueUpTo(a, 4) == AutoValueUpTo(a, 3);
      }
      assert AutoValueUpTo(a, 3) == value;
    } else if noWebhook {
      assert a == ["build", "-a", "-n"];
      assert !IsIndexPair("-n") by { if IsIndexPair("-n") { IndexPairIsNoFlag("-n"); } }
      assert AutoValueUpTo(a, 3) == AutoValueUpTo(a, 2) == AutoValueUpTo(a, 1) == "";
    } else {
      assert a == ["build", "-a"];
      assert AutoValueUpTo(a, 2) == AutoValueUpTo(a, 1) == "";
    }
  }

  /** The webhook URL is used only when it is a Discord webhook address after trimming. */
  predicate WebhookUsable(url: Option<string>) {
    "https://discord.com/api/webhooks/" <= Trim(url.GetOr(""))
  }

  /**
   * The finish notice is attempted when `-n` is absent and the webhook is
   * usable; a URL the webhook client itself rejects also yields no notice,
   * which this predicate does not see.
   */
  function Notify(flags: Flags, url: Option<string>): (b: bool)
    ensures b ==> !flags.noWebhook && Trim(url.GetOr("")) != ""
  {
    !flags.noWebhook && WebhookUsable(url)
  }

  /**
   * The auto-next step after a build of `filename`: with `-a`, the next
   * tile's name from the index and step; it is queued when that file exists.
   */
  method AutoNextStep(flags: Flags, filename: string, exists_: string -> bool) returns (r: AutoNext)
    requires flags.autoValue == "" || IsIndexPair(flags.autoValue)
    ensures !flags.autonext ==> r == Off
    ensures flags.autonext && ParseFileName(filename).index.None? ==> r == NoIndex
    ensures flags.autonext && ParseFileName(filename).index.Some? ==>
              var p := ParseFileName(filename);
              var inc := Increment(flags.autoValue);
              var next := NextFileName(p.stem, p.index.value.0 + inc.0, p.index.value.1 + inc.1, p.ext);
              && (exists_(next) ==> r == Queued(next, RedispatchArgs(flags.autoValue, flags.noWebhook)))
              && (!exists_(next) ==> r == Missing(next))
  {
    if !flags.autonext {
      return Off;
    }
    var p := ParseFileName(filename);
    if p.index.None? {
      return NoIndex;
    }
    var inc := Increment(flags.autoValue);
    var next := NextFileName(p.stem, p.index.value.0 + inc.0, p.index.value.1 + inc.1, p.ext);
    if exists_(next) {
      return Queued(next, RedispatchArgs(flags.autoValue, flags.noWebhook));
    }
    return Missing(next);
  }

  /** Truncating division and remainder (`parseInt` of a quotient, and JavaScript `%`). */
  function TDiv(a: int, b: int): int
    requires b > 0
  {
    if a >= 0 then a / b else -((-a) / b)
  }

  function TRem(a: int, b: int): int
    requires b > 0
  {
    a - b * TDiv(a, b)
  }

  datatype Hms = Hms(h: int, m: int, s: int)

  /**
   * The `h m s` of a build time of `ms` milliseconds (`endTime - startTime`):
   * whole hours, whole minutes of the remaining hour, whole seconds of the
   * remaining minute, each truncated toward zero.
   */
  function Duration(ms: int): Hms {
    Hms(TDiv(ms, 3600000), TDiv(TRem(ms, 3600000), 60000), TDiv(TRem(ms, 60000), 1000))
  }

  /**
   * The parts as the source prints them. `parseInt` reads the string form
   * of its number, and a number below 1e-6 prints in exponent form: for a
   * time of 1 to 3 ms the hours `ms / 3600000` print as `2.77...e-7`,
   * `5.55...e-7` or `8.33...e-7`, whose leading digit (`25 * ms / 9`) is read
   * as the hours. Every other part is at least 1e-6 or exactly 0.
   */
  function DurationAsPrinted(ms: int): (d: Hms)
    ensures d.m == Duration(ms).m && d.s == Duration(ms).s
    ensures !(1 <= ms <= 3 || -3 <= ms <= -1) ==> d == Duration(ms)
  {
    var h := if 1 <= ms <= 3 || -3 <= ms <= -1 then TDiv(25 * ms, 9) else TDiv(ms, 3600000);
    Hms(h, TDiv(TRem(ms, 3600000), 60000), TDiv(TRem(ms, 60000), 1000))
  }

  /** As written, a build of 1 ms is reported as 2 hours, where the intended parts are all 0. */
  lemma OneMillisecondReadsTwoHours()
    ensures DurationAsPrinted(1) == Hms(2, 0, 0) && DurationAsPrinted(2) == Hms(5, 0, 0) && DurationAsPrinted(3) == Hms(8, 0, 0)
    ensures Duration(1) == Hms(0, 0, 0) && Duration(3) == Hms(0, 0, 0)
    ensures DurationAsPrinted(1).h * 3600 + DurationAsPrinted(1).m * 60 + DurationAsPrinted(1).s != 1 / 1000
  {
    assert TDiv(25, 9) == 2 && TDiv(50, 9) == 5 && TDiv(75, 9) == 8;
  }

  /** For a non-negative time the three parts are the whole seconds written in hours, minutes and seconds. */
  lemma DurationSplits(ms: int)
    requires ms >= 0
    ensures var d := Duration(ms);
            && d.h >= 0 && 0 <= d.m < 60 && 0 <= d.s < 60
            && d.h * 3600 + d.m * 60 + d.s == ms / 1000
  {
    var h := ms / 3600000;
    var r := ms % 3600000;
    var m := r / 60000;
    var r2 := r % 60000;
    var s := r2 / 1000;
    assert ms == 3600000 * h + 60000 * m + r2;
    assert ms % 60000 == r2 by {
      DivModUnique(ms, 60000, 60 * h + m, r2);
    }
    assert ms / 1000 == 3600 * h + 60 * m + s by {
      DivModUnique(ms, 1000, 3600 * h + 60 * m + s, r2 % 1000);
    }
  }

  /** A negative time (an end before the start) reads as the same parts with the sign flipped. */
  lemma DurationOdd(ms: int)
    ensures Duration(-ms) == Hms(-Duration(ms).h, -Duration(ms).m, -Duration(ms).s)
  {
  }
}
