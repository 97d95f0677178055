/** The pending-request table of the RPC client (cpp/src/rpc_client.cpp) under concurrent calls,
    responses, send failures and disconnects. Each step is one critical section or atomic operation.
    Future states live in a table; a handle is a position in it. */
module RpcClient {
  import opened Wrappers
  import opened Bytes
  import opened RpcResponseWire

  /** Why the client completed a future. */
  datatype Cause =
    | NotConnected
    | NoBuffer
    | Answered(id: nat, response: Response)
    | SendFailed
    | ConnectionClosed

  /** `cause` holds the response once there is one. History: how often the client completed the
      future, how often doing so ran the callback, and how often on_complete itself ran one. */
  datatype Future = Future(id: Option<nat>, cause: Option<Cause>, callback: bool, completions: nat, runs: nat, late: nat)

  /** `connection` is whether connection_ points to one. */
  datatype Client = Client(
    futures: seq<Future>,
    pending: map<nat, nat>,
    nextId: nat,
    connected: bool,
    connection: bool)

  function Finish(f: Future, cause: Cause, runCallback: bool): Future {
    f.(cause := Some(cause), completions := f.completions + 1,
       runs := f.runs + if runCallback && f.callback then 1 else 0)
  }

  function FinishAt(c: Client, k: nat, cause: Cause, runCallback: bool): Client
    requires k < |c.futures|
  {
    c.(futures := c.futures[k := Finish(c.futures[k], cause, runCallback)])
  }

  /** A future completed before it is returned. */
  function Reject(c: Client, cause: Cause): Client {
    c.(futures := c.futures + [Future(None, Some(cause), false, 1, 0, 0)])
  }

  /** fetch_add on the 64-bit counter. */
  function Reserve(c: Client): Client {
    c.(futures := c.futures + [Future(Some(c.nextId), None, false, 0, 0, 0)], nextId := (c.nextId + 1) % U64)
  }

  function Register(c: Client, k: nat): Client
    requires k < |c.futures| && c.futures[k].id.Some?
  {
    c.(pending := c.pending[c.futures[k].id.value := k])
  }

  function Forget(c: Client, id: nat): Client {
    c.(pending := c.pending - {id})
  }

  ghost function SendFails(c: Client, id: nat): Client
    requires forall i :: i in c.pending ==> c.pending[i] < |c.futures|
  {
    if id in c.pending then Forget(FinishAt(c, c.pending[id], SendFailed, false), id) else c
  }

  /** disconnect() after it found the connection up. */
  function FailPending(c: Client): Client {
    c.(futures := seq(|c.futures|, k requires 0 <= k < |c.futures| =>
         if k in c.pending.Values then Finish(c.futures[k], ConnectionClosed, true) else c.futures[k]),
       pending := map[])
  }

  /** A failed connect leaves the flag as it was. */
  function Reconnect(c: Client, ok: bool): Client {
    c.(connection := ok, connected := c.connected || ok)
  }

  /** on_complete: run the callback now or keep it for the completion. */
  function SetCallback(c: Client, k: nat): Client
    requires k < |c.futures|
  {
    if c.futures[k].cause.Some? then c.(futures := c.futures[k := c.futures[k].(late := c.futures[k].late + 1)])
    else c.(futures := c.futures[k := c.futures[k].(callback := true)])
  }

  ghost predicate PendingValid(c: Client) {
    && (forall id :: id in c.pending ==> c.pending[id] < |c.futures|)
    && forall i, j :: i in c.pending && j in c.pending && i != j ==> c.pending[i] != c.pending[j]
  }

  class RpcClient {
    var futures: seq<Future>
    var pending: map<nat, nat>
    var nextRequestId: nat
    var connected: bool
    var connection: bool

    constructor ()
      ensures State() == Client([], map[], 1, false, false)
    {
      futures, pending, nextRequestId, connected, connection := [], map[], 1, false, false;
    }

    ghost function State(): Client
      reads this
    {
      Client(futures, pending, nextRequestId, connected, connection)
    }

    /** `ok` says whether the transport made a connection. */
    method ConnectTo(ok: bool)
      modifies this`connected, this`connection
      ensures State() == Reconnect(old(State()), ok)
    {
      connection := ok;
      if connection {
        connected := true;
      }
    }

    /** `healthy` and `buffer` say what the connection and the pool answer. */
    method CallAsync(healthy: bool, buffer: bool) returns (future: nat)
      modifies this
      ensures future == old(|futures|) < |futures|
      ensures State() ==
        if !old(connected) || !old(connection) || !healthy then Reject(old(State()), NotConnected)
        else if !buffer then Reject(old(State()), NoBuffer)
        else Register(Reserve(old(State())), future)
    {
      future := |futures|;
      if !connected || !connection || !healthy {
        futures := futures + [Future(None, Some(NotConnected), false, 1, 0, 0)];
        return;
      }
      if !buffer {
        futures := futures + [Future(None, Some(NoBuffer), false, 1, 0, 0)];
        return;
      }
      var id := nextRequestId;
      nextRequestId := (nextRequestId + 1) % U64;
      futures := futures + [Future(Some(id), None, false, 0, 0, 0)];
      pending := pending[id := future];
    }

    /** The first critical section of on_message; None is an unknown id. */
    method TakePending(id: nat) returns (future: Option<nat>)
      modifies this`pending
      ensures State() == Forget(old(State()), id)
      ensures future == if id in old(pending) then Some(old(pending)[id]) else None
    {
      future := None;
      if id in pending {
        future := Some(pending[id]);
        pending := pending - {id};
      } else {
        assert pending - {id} == pending;
      }
    }

    /** Its second one. */
    method CompleteFuture(future: nat, id: nat, response: Response)
      requires future < |futures|
      modifies this`futures
      ensures State() == FinishAt(old(State()), future, Answered(id, response), true)
    {
      futures := futures[future := Finish(futures[future], Answered(id, response), true)];
    }

    method OnSent(id: nat, success: bool)
      requires PendingValid(State())
      modifies this`futures, this`pending
      ensures State() == if success then old(State()) else SendFails(old(State()), id)
    {
      if !success && id in pending {
        futures := futures[pending[id] := Finish(futures[pending[id]], SendFailed, false)];
        pending := pending - {id};
      }
    }

    method Disconnect()
      requires PendingValid(State())
      modifies this
      ensures State() == if old(connected) then FailPending(old(State())).(connected := false, connection := false) else old(State())
    {
      if !connected {
        return;
      }
      connected, connection := false, false;
      var todo := pending.Keys;
      while todo != {}
        invariant todo <= pending.Keys && |futures| == old(|futures|)
        invariant pending == old(pending) && nextRequestId == old(nextRequestId) && !connected && !connection
        invariant forall id :: id in todo ==> futures[pending[id]] == old(futures)[pending[id]]
        invariant forall id :: id in pending.Keys - todo ==>
          futures[pending[id]] == Finish(old(futures)[pending[id]], ConnectionClosed, true)
        invariant forall k :: 0 <= k < |futures| && k !in pending.Values ==> futures[k] == old(futures)[k]
      {
        var id :| id in todo;
        futures := futures[pending[id] := Finish(futures[pending[id]], ConnectionClosed, true)];
        todo := todo - {id};
      }
      assert futures == FailPending(old(State())).futures;
      pending := map[];
    }

    method OnDisconnect()
      modifies this`connected
      ensures State() == old(State()).(connected := false)
    {
      connected := false;
    }

    method OnComplete(future: nat)
      requires future < |futures|
      modifies this`futures
      ensures State() == SetCallback(old(State()), future)
    {
      if futures[future].cause.Some? {
        futures := futures[future := futures[future].(late := futures[future].late + 1)];
      } else {
        futures := futures[future := futures[future].(callback := true)];
      }
    }
  }

  // ---- What each operation changes ----

  /** A rejected call is complete from the start and nowhere in the table. */
  lemma RejectExactly(c: Client, cause: Cause)
    ensures var d := Reject(c, cause);
      && d == c.(futures := d.futures) && |d.futures| == |c.futures| + 1 && c.futures <= d.futures
      && d.futures[|c.futures|] == Future(None, Some(cause), false, 1, 0, 0)
  {
  }

  /** An accepted call takes the next of the 64-bit ids and is open under it. */
  lemma AcceptExactly(c: Client)
    ensures var k := |c.futures|;
      var d := Register(Reserve(c), k);
      && d == c.(futures := d.futures, pending := c.pending[c.nextId := k], nextId := (c.nextId + 1) % 0x1_0000_0000_0000_0000)
      && |d.futures| == k + 1 && c.futures <= d.futures
      && d.futures[k] == Future(Some(c.nextId), None, false, 0, 0, 0)
  {
  }

  /** Completing a future sets its response and, if asked to, runs its callback once. */
  lemma FinishExactly(c: Client, k: nat, cause: Cause, runCallback: bool)
    requires k < |c.futures|
    ensures var d, f := FinishAt(c, k, cause, runCallback), c.futures[k];
      && d == c.(futures := d.futures) && |d.futures| == |c.futures|
      && (forall j :: 0 <= j < |c.futures| && j != k ==> d.futures[j] == c.futures[j])
      && d.futures[k] == Future(f.id, Some(cause), f.callback, f.completions + 1,
                                if runCallback && f.callback then f.runs + 1 else f.runs, f.late)
  {
  }

  /** on_complete keeps the callback of an open future and runs that of a completed one. */
  lemma SetCallbackExactly(c: Client, k: nat)
    requires k < |c.futures|
    ensures var d, f := SetCallback(c, k), c.futures[k];
      && d == c.(futures := d.futures) && |d.futures| == |c.futures|
      && (forall j :: 0 <= j < |c.futures| && j != k ==> d.futures[j] == c.futures[j])
      && d.futures[k] == if f.cause.None? then f.(callback := true) else f.(late := f.late + 1)
  {
  }

  /** A failed send completes the call under its id, without its callback, and takes it from the table. */
  lemma SendFailsExactly(c: Client, id: nat)
    requires PendingValid(c)
    ensures var d := SendFails(c, id);
      if id !in c.pending then d == c
      else
        var k, f := c.pending[id], c.futures[c.pending[id]];
        && d == c.(futures := d.futures, pending := c.pending - {id}) && |d.futures| == |c.futures|
        && (forall j :: 0 <= j < |c.futures| && j != k ==> d.futures[j] == c.futures[j])
        && d.futures[k] == f.(cause := Some(SendFailed), completions := f.completions + 1)
  {
  }

  /** A disconnect completes exactly the calls in the table, with their callbacks, and empties it. */
  lemma FailPendingExactly(c: Client)
    requires PendingValid(c)
    ensures var d := FailPending(c);
      && d == c.(futures := d.futures, pending := map[]) && |d.futures| == |c.futures|
      && (forall id :: id in c.pending ==>
            var f := c.futures[c.pending[id]];
            d.futures[c.pending[id]] == f.(cause := Some(ConnectionClosed), completions := f.completions + 1,
                                           runs := if f.callback then f.runs + 1 else f.runs))
      && (forall k :: 0 <= k < |c.futures| && k !in c.pending.Values ==> d.futures[k] == c.futures[k])
  {
  }

  lemma ReconnectExactly(c: Client, ok: bool)
    ensures Reconnect(c, ok) == if ok then c.(connection := true, connected := true) else c.(connection := false)
  {
  }

  // ---- All interleavings ----

  /** A response taken from the table and not yet delivered to its future. */
  datatype Handling = Handling(future: nat, id: nat, response: Response)

  /** Disconnects are `exchanged` until they have reset connection_, then `closing` until their critical
      section. Calls are `checked` once is_connected said yes, until they take an id; `issued` have
      taken one; `unregistered` and `unsent` hold the futures of those not yet in the table and not
      yet sent. `undefined`: a send has dereferenced a null connection_. */
  datatype World = World(
    c: Client,
    handling: set<Handling>,
    exchanged: nat,
    closing: nat,
    checked: nat,
    issued: nat,
    unregistered: set<nat>,
    unsent: set<nat>,
    undefined: bool)

  datatype Step =
    | Check
    | DoReject(cause: Cause)
    | DoReserve
    | DoRegister(future: nat)
    | DoSend(future: nat)
    | Arrive(id: nat, response: Response)
    | DoComplete(handling: Handling)
    | DoSendFails(id: nat)
    | DisconnectBegins
    | DisconnectResets
    | DisconnectFails
    | ConnectionLost
    | Connect(ok: bool)
    | DoSetCallback(future: nat)

  /** The first 2^64 calls. */
  ghost predicate Can(w: World, s: Step) {
    match s
    case Check => w.c.connected && w.c.connection
    case DoReject(cause) => cause.NotConnected? || (cause.NoBuffer? && w.checked > 0)
    case DoReserve => w.checked > 0 && w.issued < U64
    case DoRegister(k) => k in w.unregistered
    case DoSend(k) => k in w.unsent && k !in w.unregistered
    case DoComplete(h) => h in w.handling
    case DisconnectResets => w.exchanged > 0
    case DisconnectFails => w.closing > 0
    case DoSetCallback(k) => k < |w.c.futures|
    case _ => true
  }

  ghost function Do(w: World, s: Step): World
    requires Valid(w) && Can(w, s)
  {
    match s
    case Check => w.(checked := w.checked + 1)
    case DoReject(cause) => w.(c := Reject(w.c, cause), checked := if cause.NoBuffer? then w.checked - 1 else w.checked)
    case DoReserve =>
      w.(c := Reserve(w.c), checked := w.checked - 1, issued := w.issued + 1,
         unregistered := w.unregistered + {|w.c.futures|}, unsent := w.unsent + {|w.c.futures|})
    case DoRegister(k) => w.(c := Register(w.c, k), unregistered := w.unregistered - {k})
    case DoSend(k) => w.(unsent := w.unsent - {k}, undefined := w.undefined || !w.c.connection)
    case Arrive(id, response) =>
      if id in w.c.pending then
        w.(c := Forget(w.c, id), handling := w.handling + {Handling(w.c.pending[id], id, response)})
      else w
    case DoComplete(h) =>
      w.(c := FinishAt(w.c, h.future, Answered(h.id, h.response), true), handling := w.handling - {h})
    case DoSendFails(id) => w.(c := SendFails(w.c, id))
    case DisconnectBegins =>
      if w.c.connected then w.(c := w.c.(connected := false), exchanged := w.exchanged + 1) else w
    case DisconnectResets =>
      w.(c := w.c.(connection := false), exchanged := w.exchanged - 1, closing := w.closing + 1)
    case DisconnectFails => w.(c := FailPending(w.c), closing := w.closing - 1)
    case ConnectionLost => w.(c := w.c.(connected := false))
    case Connect(ok) => w.(c := Reconnect(w.c, ok))
    case DoSetCallback(k) => w.(c := SetCallback(w.c, k))
  }

  /** Which call took an id. */
  function Number(id: nat): nat {
    (id + U64 - 1) % U64
  }

  /** Completed once or not at all; an answer carries the future's own id; a callback set in time
      ran exactly if the completion was no send failure. */
  ghost predicate FutureValid(f: Future) {
    && f.completions == (if f.cause.Some? then 1 else 0)
    && (f.cause.Some? && f.cause.value.Answered? ==> f.id == Some(f.cause.value.id))
    && f.runs == (if f.callback && f.cause.Some? && !f.cause.value.SendFailed? then 1 else 0)
  }

  /** The future is open and registered under, or waiting for, this id. */
  ghost predicate Open(c: Client, k: nat, id: nat) {
    k < |c.futures| && c.futures[k].id == Some(id) && c.futures[k].cause.None?
  }

  ghost predicate IdsValid(c: Client, issued: nat) {
    && c.nextId == (issued + 1) % U64 && issued <= U64
    && (forall k :: 0 <= k < |c.futures| && c.futures[k].id.Some? ==>
          c.futures[k].id.value < U64 && Number(c.futures[k].id.value) < issued)
    && forall j, k :: 0 <= j < k < |c.futures| && c.futures[j].id.Some? ==> c.futures[j].id != c.futures[k].id
  }

  /** A future that is not complete is waiting in exactly one place. */
  ghost predicate PlacesValid(c: Client, handling: set<Handling>, unregistered: set<nat>) {
    && (forall id :: id in c.pending ==> Open(c, c.pending[id], id))
    && (forall h :: h in handling ==> Open(c, h.future, h.id) && h.id !in c.pending)
    && (forall h, g :: h in handling && g in handling && h.future == g.future ==> h == g)
    && (forall k :: k in unregistered ==>
          k < |c.futures| && c.futures[k].id.Some? && c.futures[k].cause.None?
          && c.futures[k].id.value !in c.pending
          && forall h :: h in handling ==> h.future != k)
    && forall k :: 0 <= k < |c.futures| && c.futures[k].cause.None? && c.futures[k].id.Some? ==>
         Waiting(c, handling, unregistered, k)
  }

  ghost predicate Waiting(c: Client, handling: set<Handling>, unregistered: set<nat>, k: nat)
    requires k < |c.futures| && c.futures[k].id.Some?
  {
    var id := c.futures[k].id.value;
    || (id in c.pending && c.pending[id] == k)
    || (exists h :: h in handling && h.future == k)
    || k in unregistered
  }

  ghost predicate FuturesValid(c: Client) {
    && (forall k :: 0 <= k < |c.futures| ==> FutureValid(c.futures[k]))
    && forall k :: 0 <= k < |c.futures| ==> c.futures[k].cause.Some? || c.futures[k].id.Some?
  }

  ghost predicate Valid(w: World) {
    FuturesValid(w.c) && IdsValid(w.c, w.issued) && PlacesValid(w.c, w.handling, w.unregistered)
  }

  lemma RejectKeepsValid(w: World, cause: Cause)
    requires Valid(w) && Can(w, DoReject(cause))
    ensures Valid(Do(w, DoReject(cause)))
  {
    var n := Do(w, DoReject(cause));
    forall k | 0 <= k < |n.c.futures| && n.c.futures[k].cause.None? && n.c.futures[k].id.Some?
      ensures Waiting(n.c, n.handling, n.unregistered, k)
    {
      assert Waiting(w.c, w.handling, w.unregistered, k);
    }
  }

  /** A new id differs from all before it. */
  lemma NewId(issued: nat, id: nat)
    requires issued < U64 && id == (issued + 1) % U64
    ensures id < U64 && Number(id) == issued && id == if issued + 1 == U64 then 0 else issued + 1
  {
  }

  lemma ReserveKeepsValid(w: World)
    requires Valid(w) && Can(w, DoReserve)
    ensures Valid(Do(w, DoReserve))
  {
    NewId(w.issued, w.c.nextId);
    ReserveKeepsPlaces(w.c, w.issued, w.handling, w.unregistered);
    hide PlacesValid;
    assert Reserve(w.c).nextId == (w.issued + 2) % U64;
  }

  lemma ReserveKeepsPlaces(c: Client, issued: nat, handling: set<Handling>, unregistered: set<nat>)
    requires IdsValid(c, issued) && issued < U64 && PlacesValid(c, handling, unregistered)
    ensures PlacesValid(Reserve(c), handling, unregistered + {|c.futures|})
  {
    NewId(issued, c.nextId);
    hide Number;
    var d, now := Reserve(c), unregistered + {|c.futures|};
    assert c.nextId !in c.pending;
    forall k | 0 <= k < |d.futures| && d.futures[k].cause.None? && d.futures[k].id.Some?
      ensures Waiting(d, handling, now, k)
    {
      if k < |c.futures| {
        assert Waiting(c, handling, unregistered, k);
      }
    }
  }

  lemma RegisterKeepsValid(w: World, r: nat)
    requires Valid(w) && Can(w, DoRegister(r))
    ensures Valid(Do(w, DoRegister(r)))
  {
    var n := Do(w, DoRegister(r));
    forall k | 0 <= k < |n.c.futures| && n.c.futures[k].cause.None? && n.c.futures[k].id.Some?
      ensures Waiting(n.c, n.handling, n.unregistered, k)
    {
      assert Waiting(w.c, w.handling, w.unregistered, k);
    }
  }

  lemma ArriveKeepsValid(w: World, id: nat, response: Response)
    requires Valid(w)
    ensures Valid(Do(w, Arrive(id, response)))
  {
    if id in w.c.pending {
      ArriveKeepsPlaces(w.c, w.handling, w.unregistered, Handling(w.c.pending[id], id, response));
      hide PlacesValid;
    }
  }

  lemma ArriveKeepsPlaces(c: Client, handling: set<Handling>, unregistered: set<nat>, h: Handling)
    requires PlacesValid(c, handling, unregistered) && h.id in c.pending && h.future == c.pending[h.id]
    ensures PlacesValid(Forget(c, h.id), handling + {h}, unregistered)
  {
    var d, now := Forget(c, h.id), handling + {h};
    assert forall k, id :: Open(c, k, id) <==> Open(d, k, id);
    assert h in now;
    forall k | 0 <= k < |d.futures| && d.futures[k].cause.None? && d.futures[k].id.Some?
      ensures Waiting(d, now, unregistered, k)
    {
      assert Waiting(c, handling, unregistered, k);
      if g :| g in handling && g.future == k {
        assert g in now;
      }
    }
  }

  /** Completing a future in place changes no id. */
  lemma FinishKeepsIds(c: Client, k: nat, cause: Cause, run: bool, issued: nat)
    requires FuturesValid(c) && IdsValid(c, issued) && k < |c.futures| && c.futures[k].cause.None?
    requires cause.Answered? ==> c.futures[k].id == Some(cause.id)
    requires cause.SendFailed? <==> !run
    ensures FuturesValid(FinishAt(c, k, cause, run)) && IdsValid(FinishAt(c, k, cause, run), issued)
  {
    var d := FinishAt(c, k, cause, run);
    assert forall j :: 0 <= j < |c.futures| ==> d.futures[j].id == c.futures[j].id;
  }

  lemma OtherFuturesOpen(c: Client, k: nat, cause: Cause, run: bool)
    requires k < |c.futures|
    ensures forall j, id :: j != k && Open(c, j, id) ==> Open(FinishAt(c, k, cause, run), j, id)
  {
  }

  lemma CompleteKeepsValid(w: World, h: Handling)
    requires Valid(w) && Can(w, DoComplete(h))
    ensures Valid(Do(w, DoComplete(h)))
  {
    assert Open(w.c, h.future, h.id);
    FinishKeepsIds(w.c, h.future, Answered(h.id, h.response), true, w.issued);
    CompleteKeepsPlaces(w.c, w.handling, w.unregistered, h);
    hide PlacesValid, IdsValid, FuturesValid;
  }

  lemma CompleteKeepsPlaces(c: Client, handling: set<Handling>, unregistered: set<nat>, h: Handling)
    requires PlacesValid(c, handling, unregistered) && h in handling
    ensures h.future < |c.futures|
    ensures PlacesValid(FinishAt(c, h.future, Answered(h.id, h.response), true), handling - {h}, unregistered)
  {
    assert Open(c, h.future, h.id);
    var d := FinishAt(c, h.future, Answered(h.id, h.response), true);
    OtherFuturesOpen(c, h.future, Answered(h.id, h.response), true);
    forall k | 0 <= k < |d.futures| && d.futures[k].cause.None? && d.futures[k].id.Some?
      ensures Waiting(d, handling - {h}, unregistered, k)
    {
      assert Waiting(c, handling, unregistered, k);
      if g :| g in handling && g.future == k {
        assert g in handling - {h};
      }
    }
  }

  lemma SendFailsKeepsValid(w: World, id: nat)
    requires Valid(w)
    ensures Valid(Do(w, DoSendFails(id)))
  {
    if id in w.c.pending {
      assert Open(w.c, w.c.pending[id], id);
      FinishKeepsIds(w.c, w.c.pending[id], SendFailed, false, w.issued);
      SendFailsKeepsPlaces(w.c, w.handling, w.unregistered, id);
      var d := FinishAt(w.c, w.c.pending[id], SendFailed, false);
      SameFutures(d, Forget(d, id), w.issued);
      hide PlacesValid, IdsValid, FuturesValid;
    }
  }

  lemma SameFutures(c: Client, d: Client, issued: nat)
    requires FuturesValid(c) && IdsValid(c, issued) && d.futures == c.futures && d.nextId == c.nextId
    ensures FuturesValid(d) && IdsValid(d, issued)
  {
  }

  lemma SendFailsKeepsPlaces(c: Client, handling: set<Handling>, unregistered: set<nat>, id: nat)
    requires PlacesValid(c, handling, unregistered) && id in c.pending
    ensures c.pending[id] < |c.futures|
    ensures PlacesValid(Forget(FinishAt(c, c.pending[id], SendFailed, false), id), handling, unregistered)
  {
    var k := c.pending[id];
    assert Open(c, k, id);
    var d := Forget(FinishAt(c, k, SendFailed, false), id);
    OtherFuturesOpen(c, k, SendFailed, false);
    assert forall j, i :: Open(d, j, i) <==> Open(FinishAt(c, k, SendFailed, false), j, i);
    forall j | 0 <= j < |d.futures| && d.futures[j].cause.None? && d.futures[j].id.Some?
      ensures Waiting(d, handling, unregistered, j)
    {
      assert Waiting(c, handling, unregistered, j);
    }
  }

  lemma FailPendingKeepsValid(w: World)
    requires Valid(w) && Can(w, DisconnectFails)
    ensures Valid(Do(w, DisconnectFails))
  {
    PendingOpen(w.c, w.handling, w.unregistered);
    FailPendingKeepsFutures(w.c, w.issued);
    FailPendingKeepsPlaces(w.c, w.handling, w.unregistered);
    hide PlacesValid, IdsValid, FuturesValid;
  }

  lemma PendingOpen(c: Client, handling: set<Handling>, unregistered: set<nat>)
    requires PlacesValid(c, handling, unregistered)
    ensures forall k :: k in c.pending.Values ==> k < |c.futures| && c.futures[k].cause.None?
  {
    forall k | k in c.pending.Values
      ensures k < |c.futures| && c.futures[k].cause.None?
    {
      var id :| id in c.pending && c.pending[id] == k;
      assert Open(c, c.pending[id], id);
    }
  }

  lemma FailPendingKeepsFutures(c: Client, issued: nat)
    requires FuturesValid(c) && IdsValid(c, issued)
    requires forall k :: k in c.pending.Values ==> k < |c.futures| && c.futures[k].cause.None?
    ensures FuturesValid(FailPending(c)) && IdsValid(FailPending(c), issued)
  {
    var d := FailPending(c);
    assert forall j :: 0 <= j < |c.futures| ==> d.futures[j].id == c.futures[j].id;
  }

  lemma FailPendingKeepsPlaces(c: Client, handling: set<Handling>, unregistered: set<nat>)
    requires PlacesValid(c, handling, unregistered)
    ensures PlacesValid(FailPending(c), handling, unregistered)
  {
    var d := FailPending(c);
    forall id | id in c.pending
      ensures Open(c, c.pending[id], id)
    {
    }
    forall k | 0 <= k < |d.futures| && d.futures[k].cause.None? && d.futures[k].id.Some?
      ensures Waiting(d, handling, unregistered, k)
    {
      assert Waiting(c, handling, unregistered, k);
    }
  }

  lemma SetCallbackKeepsValid(w: World, r: nat)
    requires Valid(w) && Can(w, DoSetCallback(r))
    ensures Valid(Do(w, DoSetCallback(r)))
  {
    var d := SetCallback(w.c, r);
    assert forall k :: 0 <= k < |w.c.futures| ==> d.futures[k].id == w.c.futures[k].id && d.futures[k].cause == w.c.futures[k].cause;
    SameIdsAndCauses(w.c, d, w.issued, w.handling, w.unregistered);
    hide PlacesValid, IdsValid;
  }

  /** Ids and places depend on nothing else of the futures. */
  lemma SameIdsAndCauses(c: Client, d: Client, issued: nat, handling: set<Handling>, unregistered: set<nat>)
    requires IdsValid(c, issued) && PlacesValid(c, handling, unregistered)
    requires d.pending == c.pending && d.nextId == c.nextId && |d.futures| == |c.futures|
    requires forall k :: 0 <= k < |c.futures| ==>
      d.futures[k].id == c.futures[k].id && d.futures[k].cause == c.futures[k].cause
    ensures IdsValid(d, issued) && PlacesValid(d, handling, unregistered)
  {
    assert forall k, id :: Open(c, k, id) ==> Open(d, k, id);
    forall k | 0 <= k < |d.futures| && d.futures[k].cause.None? && d.futures[k].id.Some?
      ensures Waiting(d, handling, unregistered, k)
    {
      assert Waiting(c, handling, unregistered, k);
    }
  }

  lemma StepKeepsValid(w: World, s: Step)
    requires Valid(w) && Can(w, s)
    ensures Valid(Do(w, s))
  {
    match s
    case DoReject(cause) => RejectKeepsValid(w, cause);
    case DoReserve => ReserveKeepsValid(w);
    case DoRegister(k) => RegisterKeepsValid(w, k);
    case Arrive(id, response) => ArriveKeepsValid(w, id, response);
    case DoComplete(h) => CompleteKeepsValid(w, h);
    case DoSendFails(id) => SendFailsKeepsValid(w, id);
    case DisconnectFails => FailPendingKeepsValid(w);
    case DoSetCallback(k) => SetCallbackKeepsValid(w, k);
    case _ => SwitchKeepsValid(w, s);
  }

  /** The steps that leave the futures and the table alone. */
  lemma SwitchKeepsValid(w: World, s: Step)
    requires Valid(w) && Can(w, s)
    requires
      || s.Check? || s.DoSend? || s.DisconnectBegins? || s.DisconnectResets? || s.ConnectionLost? || s.Connect?
    ensures Valid(Do(w, s))
  {
    var n := Do(w, s);
    assert n.c == w.c.(connected := n.c.connected, connection := n.c.connection);
    SameIdsAndCauses(w.c, n.c, w.issued, w.handling, w.unregistered);
  }

  const START: World := World(Client([], map[], 1, false, false), {}, 0, 0, 0, 0, {}, {}, false)

  ghost predicate IsRun(ws: seq<World>, steps: seq<Step>) {
    && |ws| == |steps| + 1
    && ws[0] == START
    && forall k :: 0 <= k < |steps| && Valid(ws[k]) ==> Can(ws[k], steps[k]) && ws[k + 1] == Do(ws[k], steps[k])
  }

  /** Under every interleaving: ids are not reused, each future is completed at most once and answered
      only under its own id, and an open one waits in exactly one place. */
  lemma {:induction false} RunKeepsValid(ws: seq<World>, steps: seq<Step>, k: nat)
    requires IsRun(ws, steps) && k < |ws|
    ensures Valid(ws[k])
  {
    if k > 0 {
      RunKeepsValid(ws, steps, k - 1);
      StepKeepsValid(ws[k - 1], steps[k - 1]);
    }
  }

  lemma HandledOpen(c: Client, handling: set<Handling>, unregistered: set<nat>)
    requires PlacesValid(c, handling, unregistered)
    ensures forall h :: h in handling ==> Open(c, h.future, h.id)
    ensures forall id :: id in c.pending ==> Open(c, c.pending[id], id)
  {
  }

  lemma StepKeepsCauses(w: World, s: Step, k: nat)
    requires Valid(w) && Can(w, s) && k < |w.c.futures|
    ensures var n := Do(w, s);
      && k < |n.c.futures| && n.c.futures[k].id == w.c.futures[k].id
      && (w.c.futures[k].cause.Some? ==> n.c.futures[k].cause == w.c.futures[k].cause)
  {
    PendingOpen(w.c, w.handling, w.unregistered);
    HandledOpen(w.c, w.handling, w.unregistered);
    hide PlacesValid, IdsValid, FuturesValid;
  }

  /** A completed future keeps its response, whatever arrives or fails later. */
  lemma {:induction false} CompletionIsFinal(ws: seq<World>, steps: seq<Step>, i: nat, j: nat, k: nat)
    requires IsRun(ws, steps) && i <= j < |ws| && k < |ws[i].c.futures| && ws[i].c.futures[k].cause.Some?
    ensures k < |ws[j].c.futures| && ws[j].c.futures[k].cause == ws[i].c.futures[k].cause
  {
    if i < j {
      CompletionIsFinal(ws, steps, i, j - 1, k);
      RunKeepsValid(ws, steps, j - 1);
      StepKeepsCauses(ws[j - 1], steps[j - 1], k);
    }
  }

  /** A response completes only the future registered under its id: the others are untouched. */
  lemma ResponseReachesItsCallOnly(w: World, h: Handling)
    requires Valid(w) && h in w.handling
    ensures var n := Do(w, DoComplete(h));
      && w.c.futures[h.future].id == Some(h.id)
      && n.c.futures[h.future].cause == Some(Answered(h.id, h.response))
      && forall k :: 0 <= k < |w.c.futures| && w.c.futures[k].id != Some(h.id) ==> n.c.futures[k] == w.c.futures[k]
  {
  }

  /** disconnect() leaves no call in the table exactly when it finds the connection marked up or
      the table empty: after on_disconnect has run, it fails nobody. */
  lemma DisconnectFailsAllExactly(c: Client)
    ensures var d := if c.connected then FailPending(c).(connected := false, connection := false) else c;
      (d.pending == map[] <==> c.connected || c.pending == map[])
      && (c.connected ==> forall id :: id in c.pending && c.pending[id] < |c.futures| ==>
            d.futures[c.pending[id]].cause == Some(ConnectionClosed))
  {
  }

  /** After the critical section of a disconnect, the futures still open are exactly those a response
      is being delivered to and those of calls caught between taking an id and registering. */
  lemma OpenAfterDisconnect(w: World, k: nat)
    requires Valid(w) && w.closing > 0 && k < |w.c.futures|
    ensures var n := Do(w, DisconnectFails);
      n.c.futures[k].cause.None? <==> k in w.unregistered || exists h :: h in w.handling && h.future == k
  {
    if h :| h in w.handling && h.future == k {
      assert Open(w.c, h.future, h.id);
    }
    if w.c.futures[k].cause.None? {
      assert Waiting(w.c, w.handling, w.unregistered, k);
    }
  }

  // ---- Calls nobody fails ----

  /** A registered call leaves the table exactly by a response or a failed send under its id, or by
      the critical section of a disconnect. */
  lemma PendingLeavesExactly(w: World, s: Step, id: nat)
    requires Valid(w) && Can(w, s) && id in w.c.pending
    ensures var n := Do(w, s);
      (id in n.c.pending && n.c.pending[id] == w.c.pending[id])
      <==> !(s.Arrive? && s.id == id) && s != DoSendFails(id) && !s.DisconnectFails?
  {
    if s.DoRegister? {
      var k := s.future;
      assert w.c.futures[k].id.value != id;
    }
  }

  /** No response, failed send or new connection. */
  ghost predicate LeavesAlone(s: Step, id: nat) {
    !(s.Arrive? && s.id == id) && s != DoSendFails(id) && s != Connect(true)
  }

  ghost predicate IsPath(ws: seq<World>, steps: seq<Step>) {
    && |ws| == |steps| + 1
    && Valid(ws[0])
    && forall k :: 0 <= k < |steps| && Valid(ws[k]) ==> Can(ws[k], steps[k]) && ws[k + 1] == Do(ws[k], steps[k])
  }

  ghost predicate Stranded(w: World, id: nat) {
    !w.c.connected && w.exchanged == 0 && w.closing == 0 && id in w.c.pending && Open(w.c, w.c.pending[id], id)
  }

  lemma StrandedStep(w: World, s: Step, id: nat)
    requires Valid(w) && Can(w, s) && Stranded(w, id) && LeavesAlone(s, id)
    ensures Stranded(Do(w, s), id) && Do(w, s).c.pending[id] == w.c.pending[id]
  {
    StepKeepsValid(w, s);
    PendingLeavesExactly(w, s, id);
  }

  /** A call that is in the table while the client is disconnected stays open in every continuation
      without a response or failed send under its id or a new connection, however often
      disconnect() is called. */
  lemma {:induction false} StrandedStays(ws: seq<World>, steps: seq<Step>, id: nat, k: nat)
    requires IsPath(ws, steps) && k < |ws| && Stranded(ws[0], id)
    requires forall j :: 0 <= j < |steps| ==> LeavesAlone(steps[j], id)
    ensures Valid(ws[k]) && Stranded(ws[k], id) && ws[k].c.pending[id] == ws[0].c.pending[id]
  {
    if k > 0 {
      StrandedStays(ws, steps, id, k - 1);
      StrandedStep(ws[k - 1], steps[k - 1], id);
      StepKeepsValid(ws[k - 1], steps[k - 1]);
    }
  }

  /** Every call that is waiting when the peer goes away gets there: on_disconnect only clears the flag. */
  lemma LostCallIsStranded() returns (ws: seq<World>, steps: seq<Step>)
    ensures IsRun(ws, steps)
    ensures var w := ws[|ws| - 1];
      Stranded(w, 1) && w.c.pending == map[1 := 0] && w.unsent == {} && !w.undefined
  {
    hide IsRun, Valid;
    var open := Future(Some(1), None, false, 0, 0, 0);
    var w2, w4 := CallRegistered(open);
    var w5 := w4.(unsent := {});
    ws, steps := RegisteringRun(open);
    ws, steps := Extend(ws, steps, w4, DoSend(0), w5);
    ws, steps := Extend(ws, steps, w5, ConnectionLost, w5.(c := w5.c.(connected := false)));
  }

  // ---- Calls caught by a disconnect ----

  ghost predicate ClearsConnection(s: Step) {
    s.DisconnectResets? || s == Connect(false)
  }

  /** Every step that cleared connection_ has been followed by a successful connect. */
  ghost predicate Restored(steps: seq<Step>, j: nat)
    requires j <= |steps|
  {
    forall m :: 0 <= m < j && ClearsConnection(steps[m]) ==> exists n :: m < n < j && steps[n] == Connect(true)
  }

  lemma RestoredNext(steps: seq<Step>, j: nat)
    requires j < |steps|
    ensures Restored(steps, j + 1) <==> steps[j] == Connect(true) || (Restored(steps, j) && !ClearsConnection(steps[j]))
  {
    if steps[j] == Connect(true) {
      forall m | 0 <= m < j + 1 && ClearsConnection(steps[m])
        ensures exists n :: m < n < j + 1 && steps[n] == Connect(true)
      {
        assert m < j < j + 1 && steps[j] == Connect(true);
      }
    } else if Restored(steps, j) && !ClearsConnection(steps[j]) {
      forall m | 0 <= m < j + 1 && ClearsConnection(steps[m])
        ensures exists n :: m < n < j + 1 && steps[n] == Connect(true)
      {
        var n :| m < n < j && steps[n] == Connect(true);
      }
    }
  }

  /** connection_, set when a call checked it, is set when the call sends exactly if every disconnect or
      failed connect that cleared it in between was followed by a successful connect; if it is not, the
      send dereferences null. */
  lemma {:induction false} SendDefinedExactly(ws: seq<World>, steps: seq<Step>, j: nat)
    requires IsPath(ws, steps) && j < |ws| && ws[0].c.connection
    ensures Valid(ws[j])
    ensures ws[j].c.connection <==> Restored(steps, j)
    ensures j < |steps| && steps[j].DoSend? ==> (ws[j + 1].undefined <==> ws[j].undefined || !Restored(steps, j))
  {
    if j > 0 {
      hide Valid, Restored;
      SendDefinedExactly(ws, steps, j - 1);
      StepKeepsValid(ws[j - 1], steps[j - 1]);
      RestoredNext(steps, j - 1);
      hide Do;
      ConnectionAfter(ws[j - 1], steps[j - 1]);
      SendAfter(ws, steps, j);
    }
  }

  lemma SendAfter(ws: seq<World>, steps: seq<Step>, j: nat)
    requires IsPath(ws, steps) && j < |ws| && Valid(ws[j])
    ensures j < |steps| && steps[j].DoSend? ==> (ws[j + 1].undefined <==> ws[j].undefined || !ws[j].c.connection)
  {
  }

  lemma ConnectionAfter(w: World, s: Step)
    requires Valid(w) && Can(w, s)
    ensures Do(w, s).c.connection <==> s == Connect(true) || (w.c.connection && !ClearsConnection(s))
  {
  }

  /** A run in which a call is caught. */
  lemma CaughtCallIsUndefined() returns (ws: seq<World>, steps: seq<Step>)
    ensures IsRun(ws, steps) && ws[|ws| - 1].undefined
  {
    hide IsRun, Valid;
    var open := Future(Some(1), None, false, 0, 0, 0);
    var w2, w4 := CallRegistered(open);
    var w5 := w4.(c := w4.c.(connected := false), exchanged := 1);
    var w6 := w5.(c := w5.c.(connection := false), exchanged := 0, closing := 1);
    ws, steps := RegisteringRun(open);
    ws, steps := Extend(ws, steps, w4, DisconnectBegins, w5);
    ws, steps := Extend(ws, steps, w5, DisconnectResets, w6);
    ws, steps := Extend(ws, steps, w6, DoSend(0), w6.(unsent := {}, undefined := true));
  }

  /** The first call has taken its id; then it is registered. */
  lemma CallRegistered(open: Future) returns (taken: World, registered: World)
    ensures taken == World(Client([open], map[], 2, true, true), {}, 0, 0, 0, 1, {0}, {0}, false)
    ensures registered == World(Client([open], map[1 := 0], 2, true, true), {}, 0, 0, 0, 1, {}, {0}, false)
  {
    taken := World(Client([open], map[], 2, true, true), {}, 0, 0, 0, 1, {0}, {0}, false);
    registered := World(Client([open], map[1 := 0], 2, true, true), {}, 0, 0, 0, 1, {}, {0}, false);
  }

  lemma RegisteringRun(open: Future) returns (ws: seq<World>, steps: seq<Step>)
    requires open == Future(Some(1), None, false, 0, 0, 0)
    ensures IsRun(ws, steps) && ws != []
    ensures ws[|ws| - 1] == World(Client([open], map[1 := 0], 2, true, true), {}, 0, 0, 0, 1, {}, {0}, false)
  {
    hide IsRun, Valid;
    var taken, registered := CallRegistered(open);
    var w1 := START.(c := START.c.(connected := true, connection := true));
    var w2 := w1.(checked := 1);
    ws, steps := Begin();
    ws, steps := Extend(ws, steps, START, Connect(true), w1);
    ws, steps := Extend(ws, steps, w1, Check, w2);
    ws, steps := Extend(ws, steps, w2, DoReserve, taken);
    ws, steps := Extend(ws, steps, taken, DoRegister(0), registered);
  }

  lemma Begin() returns (ws: seq<World>, steps: seq<Step>)
    ensures IsRun(ws, steps) && ws != [] && ws[|ws| - 1] == START
  {
    ws, steps := [START], [];
  }

  lemma Extend(ws: seq<World>, steps: seq<Step>, w: World, s: Step, n: World) returns (ws': seq<World>, steps': seq<Step>)
    requires IsRun(ws, steps) && ws != [] && ws[|ws| - 1] == w
    requires Valid(w) ==> Can(w, s) && n == Do(w, s)
    ensures IsRun(ws', steps') && ws' != [] && ws'[|ws'| - 1] == n
  {
    hide Do, Can, Valid;
    ws', steps' := ws + [n], steps + [s];
  }

  /** The 64-bit counter is why runs stop at 2^64 calls: a call leaves the others' entries alone exactly
      when its id is not pending, and an id that comes round while its first call is pending takes
      that call's response away. */
  lemma NewCallSparesOthersExactly(c: Client)
    requires PendingValid(c)
    ensures var n := Register(Reserve(c), |c.futures|);
      (forall id :: id in c.pending ==> n.pending[id] == c.pending[id]) <==> c.nextId !in c.pending
  {
    if c.nextId in c.pending {
      assert c.pending[c.nextId] < |c.futures|;
    }
  }
}
