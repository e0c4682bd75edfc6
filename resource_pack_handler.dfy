/**
 * The resource-pack handler: it registers listeners for the server's
 * resource-pack requests, keeps a history of the last ten requests, and,
 * when automatic acceptance is on, queues an acceptance for each request
 * that answers the server with the statuses accepted, downloaded and
 * successfully loaded.
 */
module ResourcePack {
  import opened Wrappers

  /** The size of the request history. */
  const HistoryLimit := 10

  /** The two packet names a request arrives under: 1.20.3 and later, and older servers. */
  datatype Event = AddResourcePack | ResourcePackSend

  /** The fields of a request packet the handler reads; `None` where the packet lacks one. */
  datatype Packet = Packet(url: Option<string>, hash: Option<string>, forced: Option<bool>,
                           promptMessage: Option<string>, uuid: Option<string>, upperUuid: Option<string>)

  /** One history entry: when the request arrived and what it asked for. */
  datatype Request = Request(timestamp: int, url: Option<string>, hash: Option<string>,
                             forced: Option<bool>, promptMessage: Option<string>)

  /** A `resource_pack_receive` packet written back: the pack's uuid (absent when unknown) and a status code. */
  datatype StatusWrite = StatusWrite(uuid: Option<string>, result: nat)

  /** The status codes the handler sends. */
  const SuccessfullyLoaded := 0
  const Declined := 1
  const FailedDownload := 2
  const Accepted := 3
  const Downloaded := 4

  /** The history entry for `packet` arriving at `now`. */
  function RequestOf(packet: Packet, now: int): (r: Request)
    ensures r.timestamp == now && r.url == packet.url && r.hash == packet.hash
    ensures r.forced == packet.forced && r.promptMessage == packet.promptMessage
  {
    Request(now, packet.url, packet.hash, packet.forced, packet.promptMessage)
  }

  /** `packet.uuid || packet.UUID`: the lower-case field unless it is absent or empty. */
  function PackId(packet: Packet): (r: Option<string>)
    ensures packet.uuid.Some? && packet.uuid.value != [] ==> r == packet.uuid
    ensures !(packet.uuid.Some? && packet.uuid.value != []) ==> r == packet.upperUuid
  {
    if packet.uuid.Some? && packet.uuid.value != [] then packet.uuid else packet.upperUuid
  }

  /**
   * `acceptResourcePack`: the three statuses written for one request, in
   * the order the timers send them, all for the same pack.
   */
  function AcceptWrites(packet: Packet): (r: seq<StatusWrite>)
    ensures |r| == 3 && forall i | 0 <= i < 3 :: r[i].uuid == PackId(packet)
    ensures r[0].result == Accepted && r[1].result == Downloaded && r[2].result == SuccessfullyLoaded
  {
    var id := PackId(packet);
    [StatusWrite(id, Accepted), StatusWrite(id, Downloaded), StatusWrite(id, SuccessfullyLoaded)]
  }

  /** `declineResourcePack`: one status, declined, with no uuid. */
  function DeclineWrite(): (w: StatusWrite)
    ensures w.uuid.None? && w.result == Declined
  {
    StatusWrite(None, Declined)
  }

  /** `reportDownloadFailed`: one status, failed download, with no uuid. */
  function FailedWrite(): (w: StatusWrite)
    ensures w.uuid.None? && w.result == FailedDownload
  {
    StatusWrite(None, FailedDownload)
  }

  /** The last `k` elements of `s`, or all of it when it is shorter. */
  function LastN<T>(s: seq<T>, k: nat): (r: seq<T>)
    ensures |r| == if |s| <= k then |s| else k
    ensures r == s[|s| - |r|..]
  {
    if |s| <= k then s else s[|s| - k..]
  }

  /**
   * Appending to a window of the last `k` elements and dropping the oldest
   * when it overflows gives the window of the longer sequence.
   */
  lemma LastNSnoc<T>(s: seq<T>, x: T, k: nat)
    requires k > 0
    ensures var w := LastN(s, k) + [x]; LastN(s + [x], k) == if |w| > k then w[1..] else w
  {
    var w := LastN(s, k) + [x];
    var t := s + [x];
    if |s| < k {
      assert LastN(t, k) == t;
    } else {
      assert |w| == k + 1;
      assert w[1..] == t[|t| - k..];
    }
  }

  /** `n` copies of `x`. */
  function Repeat<T>(x: T, n: nat): (r: seq<T>)
    ensures |r| == n
  {
    if n == 0 then [] else Repeat(x, n - 1) + [x]
  }

  lemma RepeatSmall<T>(x: T)
    ensures Repeat(x, 0) == [] && Repeat(x, 1) == [x] && Repeat(x, 2) == [x, x]
  {
    assert Repeat(x, 1) == [] + [x];
  }

  /** One more copy at the end. */
  lemma RepeatSnoc<T>(a: seq<T>, x: T, n: nat)
    ensures a + Repeat(x, n + 1) == (a + Repeat(x, n)) + [x]
  {
    assert Repeat(x, n + 1) == Repeat(x, n) + [x];
  }

  class ResourcePackHandler {
    /** `packetHistory`. */
    var history: seq<Request>
    var isEnabled: bool
    /** `options.autoAccept` and `options.logPackets`. */
    var autoAccept: bool
    var logPackets: bool
    /** How many listeners this handler has registered on the client for each packet name. */
    var addListeners: nat
    var sendListeners: nat
    /** The acceptances queued for the next turn of the event loop, oldest first. */
    var scheduled: seq<Packet>
    /** Every request handled since the history was last cleared. */
    ghost var received: seq<Request>

    /** The history holds the latest requests, at most ten, in arrival order. */
    ghost predicate Valid()
      reads this
    {
      history == LastN(received, HistoryLimit)
    }

    /** The options default to on; a given option replaces its default. */
    constructor(autoAcceptOption: Option<bool>, logPacketsOption: Option<bool>)
      ensures Valid()
      ensures autoAccept == autoAcceptOption.GetOr(true) && logPackets == logPacketsOption.GetOr(true)
      ensures history == [] && received == [] && !isEnabled && addListeners == 0 && sendListeners == 0 && scheduled == []
    {
      autoAccept := autoAcceptOption.GetOr(true);
      logPackets := logPacketsOption.GetOr(true);
      history, isEnabled, addListeners, sendListeners, scheduled := [], false, 0, 0, [];
      received := [];
      assert LastN<Request>([], HistoryLimit) == [];
    }

    /** `enable`: registers one listener per packet name, unless already enabled. */
    method Enable()
      requires Valid()
      modifies this
      ensures Valid()
      ensures isEnabled
      ensures addListeners == if old(isEnabled) then old(addListeners) else old(addListeners) + 1
      ensures sendListeners == if old(isEnabled) then old(sendListeners) else old(sendListeners) + 1
      ensures history == old(history) && received == old(received) && scheduled == old(scheduled)
      ensures autoAccept == old(autoAccept) && logPackets == old(logPackets)
    {
      if isEnabled {
        return;
      }
      addListeners, sendListeners := addListeners + 1, sendListeners + 1;
      isEnabled := true;
    }

    /** `disable`: removes the `resource_pack_send` listeners only, unless already disabled. */
    method Disable()
      requires Valid()
      modifies this
      ensures Valid()
      ensures !isEnabled && addListeners == old(addListeners)
      ensures sendListeners == if old(isEnabled) then 0 else old(sendListeners)
      ensures history == old(history) && received == old(received) && scheduled == old(scheduled)
      ensures autoAccept == old(autoAccept) && logPackets == old(logPackets)
    {
      if !isEnabled {
        return;
      }
      sendListeners := 0;
      isEnabled := false;
    }

    /** A `disable` that removes the listeners of both packet names. */
    method DisableFully()
      requires Valid()
      modifies this
      ensures Valid()
      ensures !isEnabled
      ensures addListeners == (if old(isEnabled) then 0 else old(addListeners))
      ensures sendListeners == (if old(isEnabled) then 0 else old(sendListeners))
      ensures history == old(history) && received == old(received) && scheduled == old(scheduled)
      ensures autoAccept == old(autoAccept) && logPackets == old(logPackets)
    {
      if !isEnabled {
        return;
      }
      addListeners, sendListeners := 0, 0;
      isEnabled := false;
    }

    /**
     * `handleResourcePackRequest`: the request joins the history, the
     * oldest entry goes when there are more than ten, and an acceptance is
     * queued when automatic acceptance is on.
     */
    method HandleRequest(packet: Packet, now: int)
      requires Valid()
      modifies this
      ensures Valid()
      ensures received == old(received) + [RequestOf(packet, now)]
      ensures |history| <= HistoryLimit && history[|history| - 1] == RequestOf(packet, now)
      ensures scheduled == old(scheduled) + (if autoAccept then [packet] else [])
      ensures isEnabled == old(isEnabled) && addListeners == old(addListeners) && sendListeners == old(sendListeners)
      ensures autoAccept == old(autoAccept) && logPackets == old(logPackets)
    {
      var req := RequestOf(packet, now);
      var pushed := history + [req];
      if |pushed| > HistoryLimit {
        pushed := pushed[1..];
      }
      LastNSnoc(received, req, HistoryLimit);
      history, received := pushed, received + [req];
      if autoAccept {
        scheduled := scheduled + [packet];
      }
    }

    /** The number of listeners registered for `event`. */
    function Listeners(event: Event): nat
      reads this
    {
      match event
      case AddResourcePack => addListeners
      case ResourcePackSend => sendListeners
    }

    /** The client emitting `event`: every listener registered for it runs, in turn. */
    method Receive(event: Event, packet: Packet, now: int)
      requires Valid()
      modifies this
      ensures Valid()
      ensures received == old(received) + Repeat(RequestOf(packet, now), old(Listeners(event)))
      ensures scheduled == old(scheduled) + (if autoAccept then Repeat(packet, old(Listeners(event))) else [])
      ensures isEnabled == old(isEnabled) && addListeners == old(addListeners) && sendListeners == old(sendListeners)
      ensures autoAccept == old(autoAccept) && logPackets == old(logPackets)
    {
      ghost var r0, s0 := received, scheduled;
      ghost var req := RequestOf(packet, now);
      for i := 0 to Listeners(event)
        invariant isEnabled == old(isEnabled) && addListeners == old(addListeners) && sendListeners == old(sendListeners)
        invariant autoAccept == old(autoAccept) && logPackets == old(logPackets)
        invariant Valid()
        invariant received == r0 + Repeat(req, i)
        invariant scheduled == s0 + (if autoAccept then Repeat(packet, i) else [])
      {
        HandleRequest(packet, now);
        RepeatSnoc(r0, req, i);
        RepeatSnoc(s0, packet, i);
      }
    }

    /** `getLastRequest`: the newest entry, or none when the history is empty. */
    function LastRequest(): (r: Option<Request>)
      reads this
      ensures r.None? <==> history == []
      ensures r.Some? ==> r.value == history[|history| - 1]
    {
      if history == [] then None else Some(history[|history| - 1])
    }

    /** `clearHistory`. */
    method ClearHistory()
      modifies this
      ensures Valid() && history == [] && received == []
      ensures isEnabled == old(isEnabled) && addListeners == old(addListeners) && sendListeners == old(sendListeners) && scheduled == old(scheduled)
      ensures autoAccept == old(autoAccept) && logPackets == old(logPackets)
    {
      history := [];
      received := [];
    }

    /** `setAutoAccept`. */
    method SetAutoAccept(enabled: bool)
      requires Valid()
      modifies this
      ensures Valid()
      ensures autoAccept == enabled
      ensures history == old(history) && received == old(received) && isEnabled == old(isEnabled)
      ensures addListeners == old(addListeners) && sendListeners == old(sendListeners) && scheduled == old(scheduled) && logPackets == old(logPackets)
    {
      autoAccept := enabled;
    }

    /** `setLogPackets`. */
    method SetLogPackets(enabled: bool)
      requires Valid()
      modifies this
      ensures Valid()
      ensures logPackets == enabled
      ensures history == old(history) && received == old(received) && isEnabled == old(isEnabled)
      ensures addListeners == old(addListeners) && sendListeners == old(sendListeners) && scheduled == old(scheduled) && autoAccept == old(autoAccept)
    {
      logPackets := enabled;
    }

    /** `getStatus`. */
    function Status(): (s: HandlerStatus)
      reads this
      ensures s.isEnabled == isEnabled && s.autoAccept == autoAccept
      ensures s.historyCount == |history| && s.lastRequest == LastRequest()
    {
      HandlerStatus(isEnabled, autoAccept, |history|, LastRequest())
    }
  }

  /** What `getStatus` reports. */
  datatype HandlerStatus = HandlerStatus(isEnabled: bool, autoAccept: bool, historyCount: nat, lastRequest: Option<Request>)

  /** `enable` twice registers the listeners once. */
  method EnableTwice(h: ResourcePackHandler)
    requires h.Valid()
    modifies h
    ensures h.isEnabled
    ensures h.addListeners == if old(h.isEnabled) then old(h.addListeners) else old(h.addListeners) + 1
    ensures h.sendListeners == if old(h.isEnabled) then old(h.sendListeners) else old(h.sendListeners) + 1
  {
    h.Enable();
    h.Enable();
  }

  /**
   * After `enable` then `disable`, a 1.20.3 request is still handled and
   * accepted: `disable` leaves the `add_resource_pack` listener in place.
   */
  method DisabledStillAccepts(packet: Packet, now: int) returns (h: ResourcePackHandler)
    ensures !h.isEnabled && h.autoAccept
    ensures h.received == [RequestOf(packet, now)] && h.scheduled == [packet]
  {
    h := new ResourcePackHandler(None, None);
    h.Enable();
    h.Disable();
    h.Receive(AddResourcePack, packet, now);
    RepeatSmall(packet);
    RepeatSmall(RequestOf(packet, now));
  }

  /**
   * After `enable`, `disable` and `enable` again, the `add_resource_pack`
   * listener is registered twice, so each 1.20.3 request is recorded and
   * accepted twice.
   */
  method ReenableDoubles(packet: Packet, now: int) returns (h: ResourcePackHandler)
    ensures h.isEnabled
    ensures h.received == [RequestOf(packet, now), RequestOf(packet, now)] && h.scheduled == [packet, packet]
  {
    h := new ResourcePackHandler(None, None);
    h.Enable();
    h.Disable();
    h.Enable();
    h.Receive(AddResourcePack, packet, now);
    RepeatSmall(packet);
    RepeatSmall(RequestOf(packet, now));
  }

  /** With the corrected `disable`, a disabled handler ignores requests under either name. */
  method DisabledIgnores(event: Event, packet: Packet, now: int) returns (h: ResourcePackHandler)
    ensures !h.isEnabled && h.received == [] && h.scheduled == []
  {
    h := new ResourcePackHandler(None, None);
    h.Enable();
    h.DisableFully();
    h.Receive(event, packet, now);
  }

  /** With the corrected `disable`, disabling and enabling again registers each listener once. */
  method ReenableOnce(event: Event, packet: Packet, now: int) returns (h: ResourcePackHandler)
    ensures h.isEnabled && h.received == [RequestOf(packet, now)] && h.scheduled == [packet]
  {
    h := new ResourcePackHandler(None, None);
    h.Enable();
    h.DisableFully();
    h.Enable();
    h.Receive(event, packet, now);
    RepeatSmall(packet);
    RepeatSmall(RequestOf(packet, now));
  }
}
