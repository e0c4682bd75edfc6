/**
 * The decisions a bot instance makes on its own: its id, the cleaning of
 * player names and of the whitelist, the parse of a private message, the
 * routing of a typed line, and the hand-off of a mapart command to the
 * command manager. The connection lifecycle is not modelled.
 */
module BotInstance {
  import opened Wrappers
  import opened Text
  import opened Json

  /** The bot's id: its `id` property when truthy, otherwise its `username`. */
  function Id(cfg: Config): (r: Option<Json>)
    ensures Truthy(Get(cfg, "id")) ==> r == Get(cfg, "id")
    ensures !Truthy(Get(cfg, "id")) ==> r == Get(cfg, "username")
    ensures Truthy(r) <==> Truthy(Get(cfg, "id")) || Truthy(Get(cfg, "username"))
  {
    Or(Get(cfg, "id"), Get(cfg, "username"))
  }

  // ---------------------------------------------------------------------
  // Player names: `replace(/\s*\(.+?\)\s*/, '')` and then `trim()`.
  // ---------------------------------------------------------------------

  /** The code units that `.` does not match. */
  predicate LineBreak(c: char) {
    c == '\n' || c == '\r' || c == '\U{2028}' || c == '\U{2029}'
  }

  predicate NoBreak(s: string) {
    forall k | 0 <= k < |s| :: !LineBreak(s[k])
  }

  /** The first `)` at or after `i`, provided no line break comes before it. */
  function CloseFrom(s: string, i: nat): (r: Option<nat>)
    ensures r.Some? ==> i <= r.value < |s| && s[r.value] == ')'
    ensures r.Some? ==> forall k | i <= k < r.value :: !LineBreak(s[k]) && s[k] != ')'
    decreases |s| - i
  {
    if i >= |s| || LineBreak(s[i]) then None
    else if s[i] == ')' then Some(i)
    else CloseFrom(s, i + 1)
  }

  lemma {:induction false} CloseFromFinds(s: string, i: nat, c: nat)
    requires i <= c < |s| && s[c] == ')'
    requires forall k | i <= k < c :: !LineBreak(s[k]) && s[k] != ')'
    ensures CloseFrom(s, i) == Some(c)
    decreases c - i
  {
    if i < c {
      CloseFromFinds(s, i + 1, c);
    }
  }

  /** `.+?\)` after a `(` at `q`: at least one code unit, then the first `)`, on one line. */
  function CloseOf(s: string, q: nat): Option<nat> {
    if q + 1 < |s| && !LineBreak(s[q + 1]) then CloseFrom(s, q + 2) else None
  }

  /** Whether the pattern matches from `p`: the whitespace run from `p` ends at a `(` that is closed. */
  predicate MatchesAt(s: string, p: nat) {
    var q := SkipSpaces(s, p);
    q < |s| && s[q] == '(' && CloseOf(s, q).Some?
  }

  /** The leftmost position at or after `p` where the pattern matches. */
  function FirstMatch(s: string, p: nat): (r: Option<nat>)
    ensures r.Some? ==> p <= r.value < |s| && MatchesAt(s, r.value)
    decreases |s| - p
  {
    if p >= |s| then None
    else if MatchesAt(s, p) then Some(p)
    else FirstMatch(s, p + 1)
  }

  /** The match found is the leftmost one: the pattern matches nowhere before it. */
  lemma {:induction false} FirstMatchLeast(s: string, p: nat)
    ensures forall k | p <= k < (if FirstMatch(s, p).Some? then FirstMatch(s, p).value else |s|) :: !MatchesAt(s, k)
    decreases |s| - p
  {
    if p < |s| && !MatchesAt(s, p) {
      FirstMatchLeast(s, p + 1);
    }
  }

  /** The first match removed, with the whitespace on both sides of it. */
  function RemoveGroup(s: string): string {
    match FirstMatch(s, 0)
    case None => s
    case Some(p) =>
      var c := CloseOf(s, SkipSpaces(s, p)).value;
      s[..p] + s[SkipSpaces(s, c + 1)..]
  }

  /** `cleanPlayerName`: a name with its first parenthesised tag removed, trimmed. */
  function CleanName(s: string): string {
    Trim(RemoveGroup(s))
  }

  /** A name without any `(` is only trimmed. */
  lemma CleanPlain(s: string)
    requires forall k | 0 <= k < |s| :: s[k] != '('
    ensures CleanName(s) == Trim(s)
  {
  }

  /** The tag group ` (tag)` after `name` is a match. */
  lemma TagMatches(name: string, tag: string)
    requires tag != [] && NoBreak(tag) && forall k | 0 <= k < |tag| :: tag[k] != ')'
    ensures MatchesAt(name + (" (" + tag + ")"), |name|)
    ensures CloseOf(name + (" (" + tag + ")"), |name| + 1) == Some(|name| + 2 + |tag|)
  {
    var s := name + (" (" + tag + ")");
    var n := |name|;
    var c := n + 2 + |tag|;
    assert s[n] == ' ' && s[n + 1] == '(' && s[n + 2] == tag[0] && s[c] == ')';
    assert SkipSpaces(s, n + 1) == n + 1;
    assert SkipSpaces(s, n) == n + 1;
    forall k | n + 3 <= k < c
      ensures !LineBreak(s[k]) && s[k] != ')'
    {
      assert s[k] == tag[k - n - 2];
    }
    CloseFromFinds(s, n + 3, c);
  }

  /** No match starts inside a name that has no `(` and does not end in a space: the search skips it. */
  lemma {:induction false} SkipName(name: string, rest: string, k: nat)
    requires forall k | 0 <= k < |name| :: name[k] != '('
    requires name == [] || !IsSpace(name[|name| - 1])
    requires k <= |name|
    ensures FirstMatch(name + rest, k) == FirstMatch(name + rest, |name|)
    decreases |name| - k
  {
    var s := name + rest;
    var n := |name|;
    if k < n {
      var q := SkipSpaces(s, k);
      assert s[n - 1] == name[n - 1];
      SkipSpacesStops(s, k, n - 1);
      assert s[q] == name[q];
      assert !MatchesAt(s, k);
      SkipName(name, rest, k + 1);
    }
  }

  /** When the first match closes at `c` and only whitespace follows, removing it keeps what precedes it. */
  lemma RemoveTrailingGroup(s: string, p: nat, c: nat)
    requires FirstMatch(s, 0) == Some(p) && CloseOf(s, SkipSpaces(s, p)) == Some(c)
    requires SkipSpaces(s, c + 1) == |s|
    ensures RemoveGroup(s) == s[..p]
  {
    assert s[|s|..] == [];
  }

  /** A name followed by a tag such as ` (VIP)` cleans to the name. */
  lemma CleanTagged(name: string, tag: string)
    requires forall k | 0 <= k < |name| :: name[k] != '('
    requires name == [] || !IsSpace(name[|name| - 1])
    requires tag != [] && NoBreak(tag) && forall k | 0 <= k < |tag| :: tag[k] != ')'
    ensures CleanName(name + (" (" + tag + ")")) == Trim(name)
  {
    var s := name + (" (" + tag + ")");
    var n := |name|;
    var c := n + 2 + |tag|;
    assert FirstMatch(s, 0) == Some(n) by {
      TagMatches(name, tag);
      SkipName(name, " (" + tag + ")", 0);
    }
    assert CloseOf(s, SkipSpaces(s, n)) == Some(c) by {
      TagMatches(name, tag);
      assert s[n] == ' ' && s[n + 1] == '(';
      assert SkipSpaces(s, n + 1) == n + 1;
    }
    assert SkipSpaces(s, c + 1) == |s|;
    RemoveTrailingGroup(s, n, c);
    assert s[..n] == name;
  }

  /**
   * `getCleanWhitelist`: every entry of `whitelist` cleaned, none when the
   * property is falsy. `None` where the call throws: a truthy value that is
   * not an array, or an entry that is not a string.
   */
  function CleanWhitelist(cfg: Config): (r: Option<seq<string>>)
    ensures !Truthy(Get(cfg, "whitelist")) ==> r == Some([])
    ensures Truthy(Get(cfg, "whitelist")) && r.Some? ==>
              && cfg["whitelist"].Arr? && |r.value| == |cfg["whitelist"].items|
              && forall i | 0 <= i < |r.value| ::
                   cfg["whitelist"].items[i].Str? && r.value[i] == CleanName(cfg["whitelist"].items[i].s)
    ensures Truthy(Get(cfg, "whitelist")) && r.None? ==>
              !cfg["whitelist"].Arr? || exists i | 0 <= i < |cfg["whitelist"].items| :: !cfg["whitelist"].items[i].Str?
  {
    var w := Get(cfg, "whitelist");
    if !Truthy(w) then Some([])
    else if !w.value.Arr? then None
    else CleanAll(w.value.items)
  }

  function CleanAll(items: seq<Json>): (r: Option<seq<string>>)
    ensures r.Some? ==> |r.value| == |items| && forall i | 0 <= i < |items| :: items[i].Str? && r.value[i] == CleanName(items[i].s)
    ensures r.None? ==> exists i | 0 <= i < |items| :: !items[i].Str?
  {
    if items == [] then Some([])
    else if !items[0].Str? then None
    else
      var rest := CleanAll(items[1..]);
      if rest.None? then None else Some([CleanName(items[0].s)] + rest.value)
  }

  // ---------------------------------------------------------------------
  // Private messages: `/^\[(.+?)\s*->\s*我\]\s*(.+)$/`.
  // ---------------------------------------------------------------------

  /** The sender group and the message group of a match. */
  datatype Direct = Direct(sender: string, body: string)

  /**
   * The pattern after the sender group, tried at `e`: the message group
   * when the rest of `s` matches there. When the whitespace after `我]`
   * reaches the end, it gives its last code unit back to `(.+)`.
   */
  function TailAt(s: string, e: nat): (r: Option<string>)
    ensures r.Some? ==> |r.value| <= |s| && r.value == s[|s| - |r.value|..] && r.value != [] && NoBreak(r.value)
  {
    var a := SkipSpaces(s, e);
    if a + 2 <= |s| && s[a] == '-' && s[a + 1] == '>' then
      var b := SkipSpaces(s, a + 2);
      if b + 2 <= |s| && s[b] == '我' && s[b + 1] == ']' then
        var c := SkipSpaces(s, b + 2);
        if c < |s| then (if NoBreak(s[c..]) then Some(s[c..]) else None)
        else if c > b + 2 && !LineBreak(s[c - 1]) then Some([s[c - 1]])
        else None
      else None
    else None
  }

  /**
   * The lazy group's end: the least `e'` at or after `e` where `hit`
   * holds, the code units `s[e - 1..e']` having no line break.
   */
  function Search(s: string, e: nat, hit: nat -> bool): (r: Option<nat>)
    requires 2 <= e
    ensures r.Some? ==> e <= r.value <= |s| && hit(r.value)
    decreases |s| - e
  {
    if e > |s| || LineBreak(s[e - 1]) then None
    else if hit(e) then Some(e)
    else Search(s, e + 1, hit)
  }

  /** The group the search passes over has no line break. */
  lemma {:induction false} SearchNoBreak(s: string, e: nat, hit: nat -> bool)
    requires 2 <= e && Search(s, e, hit).Some?
    ensures forall k | e - 1 <= k < Search(s, e, hit).value :: !LineBreak(s[k])
    decreases |s| - e
  {
    if Search(s, e, hit) != Some(e) {
      SearchNoBreak(s, e + 1, hit);
    }
  }

  /** The search ends at the first hit: none lies before it. */
  lemma {:induction false} SearchLeast(s: string, e: nat, hit: nat -> bool)
    requires 2 <= e && Search(s, e, hit).Some?
    ensures forall k | e <= k < Search(s, e, hit).value :: !hit(k)
    decreases |s| - e
  {
    if Search(s, e, hit) != Some(e) {
      SearchLeast(s, e + 1, hit);
    }
  }

  /** Positions `e` to `n` hold no hit, and the characters before them no line break. */
  predicate Quiet(s: string, e: nat, n: nat, hit: nat -> bool)
    requires 1 <= e && n <= |s|
    decreases n + 1 - e
  {
    e > n || (!hit(e) && !LineBreak(s[e - 1]) && Quiet(s, e + 1, n, hit))
  }

  /** A stretch with no hit and no line break is passed over. */
  lemma {:induction false} SearchSkips(s: string, e: nat, n: nat, hit: nat -> bool)
    requires 2 <= e <= n + 1 <= |s| + 1
    requires Quiet(s, e, n, hit)
    ensures Search(s, e, hit) == Search(s, n + 1, hit)
    decreases n + 1 - e
  {
    if e <= n {
      SearchSkips(s, e + 1, n, hit);
    }
  }

  /** Whether the rest of the pattern matches after a sender group ending at `e`. */
  function TailHit(s: string): nat -> bool {
    (e: nat) => TailAt(s, e).Some?
  }

  /** The match of a chat line against the private-message pattern. */
  function ParseDirect(s: string): (r: Option<Direct>)
    ensures r.Some? ==> 1 <= |r.value.sender| < |s| && s[0] == '[' && s[1..1 + |r.value.sender|] == r.value.sender
  {
    if |s| >= 1 && s[0] == '[' then
      match Search(s, 2, TailHit(s))
      case None => None
      case Some(e) => Some(Direct(s[1..e], TailAt(s, e).value))
    else None
  }

  /** The sender has no line break, and the rest of the pattern matches after it with the body as its group. */
  lemma DirectParts(s: string, d: Direct)
    requires ParseDirect(s) == Some(d)
    ensures NoBreak(d.sender) && TailAt(s, 1 + |d.sender|) == Some(d.body)
  {
    var hit := TailHit(s);
    var e := Search(s, 2, hit).value;
    assert e == 1 + |d.sender|;
    SearchNoBreak(s, 2, hit);
    forall k | 0 <= k < |d.sender|
      ensures !LineBreak(d.sender[k])
    {
      assert d.sender[k] == s[k + 1];
    }
  }

  /** The sender is the shortest one the pattern allows: the rest of the pattern matches at no earlier end. */
  lemma SenderLeast(s: string, d: Direct)
    requires ParseDirect(s) == Some(d)
    ensures forall e: nat | 2 <= e < 1 + |d.sender| :: TailAt(s, e).None?
  {
    var hit := TailHit(s);
    SearchLeast(s, 2, hit);
    forall e: nat | 2 <= e < 1 + |d.sender|
      ensures TailAt(s, e).None?
    {
      assert !hit(e);
    }
  }

  /** `s` is `[sender -> 我] body`. */
  predicate Layout(s: string, sender: string, body: string) {
    && |s| == |sender| + 8 + |body| && s[0] == '['
    && s[1..|sender| + 1] == sender && s[|sender| + 1..|sender| + 8] == " -> 我] " && s[|sender| + 8..] == body
  }

  lemma LayoutOf(sender: string, body: string)
    ensures Layout("[" + sender + " -> 我] " + body, sender, body)
  {
  }

  /** The rest of the pattern does not match inside the sender: no `->` follows the whitespace there. */
  lemma NoTailInSender(s: string, sender: string, body: string, e: nat)
    requires Layout(s, sender, body) && 2 <= e <= |sender|
    requires sender != [] && !IsSpace(sender[|sender| - 1])
    requires forall k | 0 <= k < |sender| :: sender[k] != '-'
    ensures !TailHit(s)(e)
  {
    var n := |sender|;
    assert s[n] == sender[n - 1];
    var a := SkipSpaces(s, e);
    SkipSpacesStops(s, e, n);
    assert s[a] == sender[a - 1];
  }

  /** Right after the sender, the rest of the pattern matches and its group is the body. */
  lemma TailOnLayout(s: string, sender: string, body: string)
    requires Layout(s, sender, body)
    requires body != [] && NoBreak(body) && !IsSpace(body[0])
    ensures TailAt(s, |sender| + 1) == Some(body)
  {
    var n := |sender|;
    var mid := s[n + 1..n + 8];
    assert s[n + 1] == mid[0] == ' ' && s[n + 2] == mid[1] == '-' && s[n + 3] == mid[2] == '>' && s[n + 4] == mid[3] == ' ';
    assert s[n + 5] == mid[4] == '我' && s[n + 6] == mid[5] == ']' && s[n + 7] == mid[6] == ' ';
    assert s[n + 8] == body[0];
    assert SkipSpaces(s, n + 1) == n + 2 by {
      assert SkipSpaces(s, n + 2) == n + 2;
    }
    assert SkipSpaces(s, n + 4) == n + 5 by {
      assert SkipSpaces(s, n + 5) == n + 5;
    }
    assert SkipSpaces(s, n + 7) == n + 8 by {
      assert SkipSpaces(s, n + 8) == n + 8;
    }
  }

  lemma DirectOnLayout(s: string, sender: string, body: string)
    requires Layout(s, sender, body)
    requires sender != [] && NoBreak(sender) && !IsSpace(sender[|sender| - 1])
    requires forall k | 0 <= k < |sender| :: sender[k] != '-'
    requires body != [] && NoBreak(body) && !IsSpace(body[0])
    ensures ParseDirect(s) == Some(Direct(sender, body))
  {
    var n := |sender|;
    var hit := TailHit(s);
    assert TailAt(s, n + 1) == Some(body) by {
      TailOnLayout(s, sender, body);
    }
    assert Search(s, n + 1, hit) == Some(n + 1) by {
      assert s[n] == sender[n - 1];
    }
    assert Search(s, 2, hit) == Search(s, n + 1, hit) by {
      SenderQuiet(s, sender, body, 2);
      SearchSkips(s, 2, n, hit);
    }
    ParseDirectAt(s, n + 1, body);
  }

  /** Inside the sender group of a laid-out line the search finds neither a hit nor a line break. */
  lemma {:induction false} SenderQuiet(s: string, sender: string, body: string, e: nat)
    requires Layout(s, sender, body)
    requires sender != [] && NoBreak(sender) && !IsSpace(sender[|sender| - 1])
    requires forall k | 0 <= k < |sender| :: sender[k] != '-'
    requires body != [] && NoBreak(body) && !IsSpace(body[0])
    requires 2 <= e
    ensures |sender| <= |s| && Quiet(s, e, |sender|, TailHit(s))
    decreases |sender| + 1 - e
  {
    if e <= |sender| {
      assert s[e - 1] == sender[e - 2];
      NoTailInSender(s, sender, body, e);
      SenderQuiet(s, sender, body, e + 1);
    }
  }

  /** The parse when the search ends at `e` with the message group `body`. */
  lemma ParseDirectAt(s: string, e: nat, body: string)
    requires |s| >= 1 && s[0] == '[' && 2 <= e
    requires Search(s, 2, TailHit(s)) == Some(e) && TailAt(s, e) == Some(body)
    ensures ParseDirect(s) == Some(Direct(s[1..e], body))
  {
  }

  /** The message line `[sender -> 我] body` parses back into its sender and body. */
  lemma DirectRoundTrip(sender: string, body: string)
    requires sender != [] && NoBreak(sender) && !IsSpace(sender[|sender| - 1])
    requires forall k | 0 <= k < |sender| :: sender[k] != '-'
    requires body != [] && NoBreak(body) && !IsSpace(body[0])
    ensures ParseDirect("[" + sender + " -> 我] " + body) == Some(Direct(sender, body))
  {
    LayoutOf(sender, body);
    DirectOnLayout("[" + sender + " -> 我] " + body, sender, body);
  }

  // ---------------------------------------------------------------------
  // Routing of typed lines and of private messages.
  // ---------------------------------------------------------------------

  /** The names the mapart plugin answers to. */
  const Identifiers: seq<string> := ["mapart", "mp", "map"]

  /** What a typed line asks for. */
  datatype Route = Ignore | Chat(msg: Option<string>) | NotReady | Dispatch(parts: seq<string>)

  /**
   * A trimmed, non-empty line: after `.` it is chat (nothing is sent when
   * the rest is blank); a first word naming the mapart plugin dispatches
   * the words once the plugin is ready; anything else is not handled here.
   */
  function RouteLine(trimmed: string, ready: bool): (r: Route)
    requires trimmed != []
    ensures r.Chat? <==> trimmed[0] == '.'
    ensures r.Chat? ==> (r.msg.Some? <==> Trim(trimmed[1..]) != []) && (r.msg.Some? ==> r.msg.value == Trim(trimmed[1..]))
    ensures r.NotReady? || r.Dispatch? <==> trimmed[0] != '.' && Lower(Words(trimmed)[0]) in Identifiers
    ensures r.Dispatch? <==> ready && trimmed[0] != '.' && Lower(Words(trimmed)[0]) in Identifiers
    ensures r.Dispatch? ==> r.parts == Words(trimmed)
  {
    if trimmed[0] == '.' then
      var msg := Trim(trimmed[1..]);
      Chat(if msg != [] then Some(msg) else None)
    else
      var parts := Words(trimmed);
      if Lower(parts[0]) in Identifiers then (if ready then Dispatch(parts) else NotReady)
      else Ignore
  }

  /** `mp build` style lines reach the mapart plugin as their words. */
  lemma RouteMapart(w: string, rest: string)
    requires w in Identifiers
    requires rest == [] || !IsSpace(rest[0])
    ensures RouteLine(w + " " + rest, true) == Dispatch([w] + Words(rest))
  {
    var line := w + " " + rest;
    assert line == w + [' '] + rest;
    assert line[0] == w[0] == 'm';
    WordsCons(w, ' ', rest);
    LowerIdempotentOn(w);
  }

  lemma LowerIdempotentOn(w: string)
    requires w in Identifiers
    ensures Lower(w) == w
  {
  }

  /** The web page's command handler: blank input is refused; otherwise the line is routed. */
  function WebRoute(cmd: Option<string>, ready: bool): (r: Route)
    ensures Trim(cmd.GetOr("")) == [] ==> r == Ignore
    ensures Trim(cmd.GetOr("")) != [] ==> r == RouteLine(Trim(cmd.GetOr("")), ready)
  {
    var trimmed := Trim(cmd.GetOr(""));
    if trimmed == [] then Ignore else RouteLine(trimmed, ready)
  }

  /** The handler's answer: chat and a not-ready plugin count as handled; a dispatch answers with the dispatcher's answer. */
  function WebHandled(r: Route, dispatched: bool): (b: bool)
    ensures r.Ignore? ==> !b
    ensures r.Chat? || r.NotReady? ==> b
    ensures r.Dispatch? ==> b == dispatched
  {
    match r
    case Ignore => false
    case Chat(_) => true
    case NotReady => true
    case Dispatch(_) => dispatched
  }

  /** The result of handing a command to the command manager. */
  datatype Handoff = Handoff(handled: bool, forwarded: Option<seq<string>>, reply: Option<string>)

  /**
   * `dispatchMapartCommand`: at least two words whose first, lowered, is a
   * registered prefix; the rest are forwarded. `run` is what the command
   * manager does with them: its answer, or the message of what it threw, in
   * which case the command counts as handled and a player who sent it by
   * private message is told.
   */
  function DispatchMapart(content: seq<string>, source: string, user: string, prefixes: set<string>, run: Result<bool, string>): (h: Handoff)
    ensures h.forwarded.Some? <==> |content| >= 2 && Lower(content[0]) in prefixes
    ensures h.forwarded.Some? ==> h.forwarded.value == content[1..]
    ensures h.forwarded.None? ==> !h.handled && h.reply.None?
    ensures h.forwarded.Some? ==> (h.handled <==> run.Failure? || run.value)
    ensures h.reply.Some? <==> h.forwarded.Some? && run.Failure? && source == "minecraft-dm" && user != ""
    ensures h.reply.Some? ==> h.reply.value == "/m " + user + " &c執行錯誤: " + run.error
  {
    if |content| < 2 then Handoff(false, None, None)
    else if Lower(content[0]) !in prefixes then Handoff(false, None, None)
    else match run
      case Success(b) => Handoff(b, Some(content[1..]), None)
      case Failure(msg) =>
        Handoff(true, Some(content[1..]),
                if source == "minecraft-dm" && user != "" then Some("/m " + user + " &c執行錯誤: " + msg) else None)
  }

  /** What a chat line makes the bot do: a mapart dispatch (with the sender) and/or dropping its inventory. */
  datatype Reaction = Reaction(dispatch: Option<(seq<string>, string)>, dropAll: bool)

  /** The sender and words of a private message from a whitelisted player. */
  function Whispered(raw: string, cfg: Config): (r: Option<(string, seq<string>)>)
    ensures r.Some? ==> |r.value.1| >= 1
    ensures r.Some? ==> ParseDirect(Trim(raw)).Some? && CleanWhitelist(cfg).Some?
    ensures r.Some? ==> r.value.0 == CleanName(ParseDirect(Trim(raw)).value.sender) && r.value.0 in CleanWhitelist(cfg).value
    ensures r.Some? ==> r.value.1 == Words(Trim(ParseDirect(Trim(raw)).value.body))
    ensures (ParseDirect(Trim(raw)).Some? && CleanWhitelist(cfg).Some?
             && CleanName(ParseDirect(Trim(raw)).value.sender) in CleanWhitelist(cfg).value) ==> r.Some?
  {
    var text := Trim(raw);
    match ParseDirect(text)
    case None => None
    case Some(d) =>
      var player := CleanName(d.sender);
      var wl := CleanWhitelist(cfg);
      if wl.None? || player !in wl.value then None
      else Some((player, Words(Trim(d.body))))
  }

  /**
   * What `onMessage` does with a whisper `w` (the sender and the words of
   * the body): the mapart plugin is dispatched when the first word names it
   * (once the plugin is ready), and the inventory is emptied when the first
   * word is `dropall`.
   */
  function React(w: Option<(string, seq<string>)>, ready: bool): (r: Reaction)
    requires w.Some? ==> |w.value.1| >= 1
    ensures r.dispatch.Some? <==> ready && w.Some? && Lower(w.value.1[0]) in Identifiers
    ensures r.dispatch.Some? ==> r.dispatch.value == (w.value.1, w.value.0)
    ensures r.dropAll <==> w.Some? && w.value.1[0] == "dropall"
  {
    match w
    case None => Reaction(None, false)
    case Some((player, parts)) =>
      Reaction(if parts[0] != "" && Lower(parts[0]) in Identifiers && ready then Some((parts, player)) else None,
               parts[0] == "dropall")
  }

  /** `onMessage`: a chat line read as a whisper from a whitelisted player, and acted on. */
  function OnMessage(raw: string, cfg: Config, ready: bool): Reaction {
    React(Whispered(raw, cfg), ready)
  }

  /** A private message `[name -> 我] body` from a whitelisted player is read as that player and the words of the body. */
  lemma {:induction false} WhisperOf(name: string, body: string, cfg: Config)
    requires name != [] && NoBreak(name) && !IsSpace(name[0]) && !IsSpace(name[|name| - 1])
    requires forall k | 0 <= k < |name| :: name[k] != '-' && name[k] != '('
    requires body != [] && NoBreak(body) && !IsSpace(body[0]) && !IsSpace(body[|body| - 1])
    requires CleanWhitelist(cfg).Some? && name in CleanWhitelist(cfg).value
    ensures Whispered("[" + name + " -> 我] " + body, cfg) == Some((name, Words(body)))
  {
    var raw := "[" + name + " -> 我] " + body;
    assert raw[0] == '[' && raw[|raw| - 1] == body[|body| - 1];
    TrimOfUnpadded(raw);
    DirectRoundTrip(name, body);
    TrimOfUnpadded(body);
    CleanPlain(name);
    TrimOfUnpadded(name);
  }

  /** A whitelisted player's `[name -> 我] dropall` empties the inventory, and starts no mapart command. */
  lemma DropAllFromWhitelisted(name: string, cfg: Config)
    requires name != [] && NoBreak(name) && !IsSpace(name[0]) && !IsSpace(name[|name| - 1])
    requires forall k | 0 <= k < |name| :: name[k] != '-' && name[k] != '('
    requires CleanWhitelist(cfg).Some? && name in CleanWhitelist(cfg).value
    ensures OnMessage("[" + name + " -> 我] " + "dropall", cfg, true) == Reaction(None, true)
  {
    DropAllWord();
    WhisperOf(name, "dropall", cfg);
  }

  lemma DropAllWord()
    ensures NoBreak("dropall") && !IsSpace("dropall"[0]) && !IsSpace("dropall"[6])
    ensures Words("dropall") == ["dropall"] && Lower("dropall") !in Identifiers
  {
    var body := "dropall";
    assert forall j | 0 <= j < |body| :: !IsSpace(body[j]) && !LineBreak(body[j]);
    WordsOfWord(body);
  }

  /** A player missing from the whitelist gets no reaction at all. */
  lemma StrangerIgnored(raw: string, cfg: Config, ready: bool)
    requires ParseDirect(Trim(raw)).Some?
    requires CleanWhitelist(cfg).Some? && CleanName(ParseDirect(Trim(raw)).value.sender) !in CleanWhitelist(cfg).value
    ensures OnMessage(raw, cfg, ready) == Reaction(None, false)
  {
  }
}
