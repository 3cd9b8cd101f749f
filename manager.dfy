/**
 * The manager of ssmanager/sspy.py: one proxy process (ssserver) hosts every
 * instance, and the manager drives it over a local datagram socket.
 *
 * The process, the socket and the receiver thread are reduced to the state
 * the code tests and changes: which handles exist, whether the two socket
 * paths exist on disk, what has been sent, whether the receiver thread has
 * been started, and the acknowledgment event, which this code only ever sets
 * and waits on and so is a latch that never resets.
 */
module SsPy {
  import opened Codec
  import opened Stats
  import Retry

  /** An instance as the registry holds it. Only the fields this code touches are modelled. */
  class Server {
    const host: string
    const port: int
    var config: Config
    var traffic: int
    var isRunning: bool

    constructor (host: string, port: int, config: Config)
      ensures this.host == host && this.port == port && this.config == config
      ensures traffic == 0 && !isRunning
    {
      this.host, this.port, this.config := host, port, config;
      traffic, isRunning := 0, false;
    }
  }

  datatype Socket = NoSocket | Unconnected | Connected | Closed

  datatype Process = NoProcess | Launched | Terminated

  /** The resources stop tears down: the socket, the process, and the two socket paths on disk. */
  datatype Handles = Handles(sock: Socket, proc: Process, managerPath: bool, clientPath: bool)

  /**
   * What stop does to the handles: a socket that exists is closed, a process
   * that exists is terminated, and both paths are removed. A handle that does
   * not exist is left alone.
   */
  function Teardown(h: Handles): (r: Handles)
    ensures r.sock != Connected && !r.managerPath && !r.clientPath
    ensures r.sock.NoSocket? <==> h.sock.NoSocket?
    ensures r.proc.NoProcess? <==> h.proc.NoProcess?
    ensures !r.proc.Launched?
  {
    Handles(
      if h.sock.NoSocket? then NoSocket else Closed,
      if h.proc.NoProcess? then NoProcess else Terminated,
      false,
      false)
  }

  /** Stopping twice is the same as stopping once. */
  lemma TeardownIdempotent(h: Handles)
    ensures Teardown(Teardown(h)) == Teardown(h)
  {
  }

  /** How a call that waits on the acknowledgment event proceeds. */
  datatype Reply =
    | Acknowledged   // the event is set: wait returns at once
    | AwaitingAck    // the caller blocks until the receiver sees `ok`

  class Manager {
    /** The registry of the base manager: port to instance. */
    var servers: map<int, Server>
    /** The base manager's running flag; the receiver loops while it is set. */
    var isRunning: bool
    /** The acknowledgment event. */
    var ok: bool
    var handles: Handles
    var receiverStarted: bool
    /** The receiver thread ended on an exception; nothing restarts it. */
    var receiverDead: bool
    /** Every datagram sent to the proxy, oldest first. */
    var sent: seq<string>

    /** Each port names its own instance object. */
    ghost predicate Valid()
      reads this
    {
      forall p, q :: p in servers && q in servers && p != q ==> servers[p] != servers[q]
    }

    function Traffic(): map<int, int>
      reads this, servers.Values
    {
      map p | p in servers :: servers[p].traffic
    }

    /** The state the receiver changes. */
    function ReceiverView(): View
      reads this, servers.Values
    {
      View(ok, Traffic())
    }

    /** What `_ok.wait()` does now: return at once when the event is set, block otherwise. */
    function Await(): Reply
      reads this
    {
      if ok then Acknowledged else AwaitingAck
    }

    /** The instance fields the receiver must leave alone. */
    twostate predicate ServersKept()
      reads this, servers.Values
    {
      servers == old(servers) &&
      forall p :: p in servers ==> servers[p].isRunning == old(servers[p].isRunning) && servers[p].config == old(servers[p].config)
    }

    /**
     * A manager over a registry; `managerPath` and `clientPath` say whether
     * the two socket paths are already present on disk.
     */
    constructor (servers: map<int, Server>, managerPath: bool, clientPath: bool)
      requires forall p, q :: p in servers && q in servers && p != q ==> servers[p] != servers[q]
      ensures Valid()
      ensures this.servers == servers && !isRunning && !ok && !receiverStarted && !receiverDead && sent == []
      ensures handles == Handles(NoSocket, NoProcess, managerPath, clientPath)
    {
      this.servers := servers;
      isRunning := false;
      ok := false;
      handles := Handles(NoSocket, NoProcess, managerPath, clientPath);
      receiverStarted, receiverDead := false, false;
      sent := [];
    }

    /**
     * Launch the proxy, bind the client path, connect with retry, start the
     * receiver and send the handshake. `outcomes` says which connect attempts
     * the proxy accepts; `slept` lists the delays slept.
     */
    method Start(outcomes: seq<bool>) returns (r: Result<Reply, Fault>, slept: seq<nat>)
      requires Valid()
      modifies this
      ensures Valid() && servers == old(servers) && ok == old(ok) && receiverDead == old(receiverDead)
      ensures isRunning && handles.proc == Launched
      // bind fails on a path that exists: nothing is attempted after it, and the path stays
      ensures old(handles.clientPath) ==>
        r == Err(AddressInUse) && slept == [] && handles.sock == Unconnected && handles.clientPath &&
        handles.managerPath == old(handles.managerPath) &&
        sent == old(sent) && receiverStarted == old(receiverStarted)
      ensures !old(handles.clientPath) ==>
        handles.clientPath && |slept| == Retry.Attempts(outcomes) && slept == Retry.Schedule[..|slept|]
      // the schedule runs out: no thread, no handshake
      ensures !old(handles.clientPath) && !Retry.Reachable(outcomes) ==>
        r == Err(ConnectionError) && slept == Retry.Schedule && handles.sock == Unconnected &&
        handles.managerPath == old(handles.managerPath) &&
        sent == old(sent) && receiverStarted == old(receiverStarted)
      ensures !old(handles.clientPath) && Retry.Reachable(outcomes) ==>
        handles.sock == Connected && handles.managerPath && receiverStarted
      ensures !old(handles.clientPath) && Retry.Reachable(outcomes) && old(receiverStarted) ==>
        r == Err(ThreadAlreadyStarted) && sent == old(sent)
      ensures !old(handles.clientPath) && Retry.Reachable(outcomes) && !old(receiverStarted) ==>
        r == Ok(Await()) && sent == old(sent) + [Handshake]
    {
      isRunning := true;
      handles := handles.(proc := Launched, sock := Unconnected);
      slept := [];
      if handles.clientPath {
        return Err(AddressInUse), slept;
      }
      handles := handles.(clientPath := true);
      var connected;
      connected, slept := Retry.Connect(outcomes);
      if !connected {
        return Err(ConnectionError), slept;
      }
      // the proxy accepted, so its control path exists
      handles := handles.(sock := Connected, managerPath := true);
      if receiverStarted {
        return Err(ThreadAlreadyStarted), slept;
      }
      receiverStarted := true;
      sent := sent + [Handshake];
      r := Ok(Await());
    }

    /** Close what is open, terminate what was launched, remove the socket paths. Safe at any time. */
    method Stop()
      modifies this
      ensures !isRunning && handles == Teardown(old(handles))
      ensures servers == old(servers) && ok == old(ok) && sent == old(sent)
      // the receiver thread ends with the manager: it sees the flag cleared, or
      // its socket closed, and the thread object cannot be started again
      ensures receiverStarted == old(receiverStarted) && receiverDead == (old(receiverDead) || old(receiverStarted))
    {
      isRunning := false;
      receiverDead := receiverDead || receiverStarted;
      var h := handles;
      if h.sock != NoSocket {
        h := h.(sock := Closed);
      }
      if h.proc != NoProcess {
        h := h.(proc := Terminated);
      }
      if h.managerPath {
        h := h.(managerPath := false);
      }
      if h.clientPath {
        h := h.(clientPath := false);
      }
      handles := h;
    }

    /**
     * Mark the instance running, then send `add: ` and its configuration with
     * `auth` renamed to `one_time_auth`, then wait for the acknowledgment.
     * The instance's own configuration is copied, never changed.
     */
    method StartInstance(server: Server, dumps: Config -> string) returns (r: Result<Reply, Fault>)
      modifies this`sent, server`isRunning
      ensures server.isRunning && server.config == old(server.config)
      ensures "auth" !in server.config ==> r == Err(KeyError("auth")) && sent == old(sent)
      ensures "auth" in server.config && handles.sock != Connected ==> r == Err(SendFailed) && sent == old(sent)
      ensures "auth" in server.config && handles.sock == Connected ==>
        r == Ok(Await()) && sent == old(sent) + [EncodeAdd(server.config, dumps).value]
    {
      server.isRunning := true;
      var command := EncodeAdd(server.config, dumps);
      if command.Err? {
        return Err(command.error);
      }
      if handles.sock != Connected {
        return Err(SendFailed);
      }
      sent := sent + [command.value];
      r := Ok(Await());
    }

    /** Mark the instance stopped, send `remove: {"server_port":<port>}`, then wait for the acknowledgment. */
    method StopInstance(server: Server) returns (r: Result<Reply, Fault>)
      modifies this`sent, server`isRunning
      ensures !server.isRunning
      ensures handles.sock != Connected ==> r == Err(SendFailed) && sent == old(sent)
      ensures handles.sock == Connected ==> r == Ok(Await()) && sent == old(sent) + [EncodeRemovePort(server.port)]
    {
      server.isRunning := false;
      if handles.sock != Connected {
        return Err(SendFailed);
      }
      sent := sent + [EncodeRemovePort(server.port)];
      r := Ok(Await());
    }

    /**
     * Credit a stat frame's items to the registry in order. A key that is not
     * an integer raises: `crashed` is set and the items before it stay credited.
     */
    method ApplyStat(items: StatItems) returns (crashed: bool)
      requires Valid()
      modifies servers.Values
      ensures ServersKept()
      ensures Credited(Traffic(), crashed) == Credit(old(Traffic()), items)
    {
      ghost var t0 := Traffic();
      var i := 0;
      while i < |items|
        invariant 0 <= i <= |items|
        invariant ServersKept()
        invariant Credit(t0, items[..i]) == Credited(Traffic(), false)
      {
        assert items[..i + 1][..i] == items[..i];
        ghost var prev := Traffic();
        var port := ParseInt(items[i].0);
        if port.None? {
          CreditStopsAtCrash(t0, items, i + 1);
          return true;
        }
        var p := port.value;
        if p in servers {
          ghost var before := Traffic();
          var s := servers[p];
          s.traffic := s.traffic + items[i].1;
          forall q | q in servers && q != p ensures Traffic()[q] == before[q] {
            assert servers[q] != s;
          }
          assert Traffic() == before[p := before[p] + items[i].1];
        }
        assert CreditOne(prev, items[i]) == Credited(Traffic(), false);
        i := i + 1;
      }
      assert items[..i] == items;
      crashed := false;
    }

    /** One datagram taken off the channel: `ok`, a stat frame, or another verb. */
    method HandleDatagram(data: string, loads: Loads) returns (crashed: bool)
      requires Valid()
      modifies this`ok, servers.Values
      ensures ServersKept()
      ensures Step(ReceiverView(), crashed) == Dispatch(old(ReceiverView()), data, loads)
    {
      if data == "ok" {
        ok := true;
        return false;
      }
      match SplitFirst(data, ':')
      case None =>
        crashed := true;
      case Some(parts) =>
        if parts.0 != "stat" {
          crashed := false;
        } else {
          match loads(parts.1)
          case None =>
            crashed := true;
          case Some(items) =>
            crashed := ApplyStat(items);
        }
    }

    /**
     * The loop of the receiver thread: while the manager runs, take the next
     * datagram and handle it, until `frames` is used up or a datagram raises.
     */
    method ReceiveLoop(frames: seq<string>, loads: Loads) returns (handled: nat, crashed: bool)
      requires Valid() && isRunning
      modifies this`ok, servers.Values
      ensures ServersKept()
      ensures Drained(ReceiverView(), handled, crashed) == Drain(old(ReceiverView()), frames, loads)
    {
      ghost var v0 := ReceiverView();
      handled, crashed := 0, false;
      while isRunning && handled < |frames|
        invariant handled <= |frames|
        invariant ServersKept()
        invariant Drain(v0, frames[..handled], loads) == Drained(ReceiverView(), handled, false)
      {
        assert frames[..handled + 1][..handled] == frames[..handled];
        crashed := HandleDatagram(frames[handled], loads);
        handled := handled + 1;
        if crashed {
          DrainStopsAtCrash(v0, frames, loads, handled);
          return;
        }
      }
      assert frames[..handled] == frames;
    }

    /**
     * The receiver thread, when it gets to run: only once it has been
     * started, and only until a datagram has raised in it; a thread that
     * raised is dead and nothing restarts it.
     */
    method Receive(frames: seq<string>, loads: Loads) returns (handled: nat, crashed: bool)
      requires Valid()
      modifies this`ok, this`receiverDead, servers.Values
      ensures ServersKept() && handled <= |frames|
      ensures receiverDead == (old(receiverDead) || crashed)
      ensures old(isRunning && receiverStarted && !receiverDead) ==>
        Drained(ReceiverView(), handled, crashed) == Drain(old(ReceiverView()), frames, loads)
      // once the receiver has seen `ok`, every wait returns at once
      ensures old(isRunning && receiverStarted && !receiverDead) ==>
        (Await() == Acknowledged <==> old(ok) || exists i :: 0 <= i < handled && frames[i] == "ok")
      ensures !old(isRunning && receiverStarted && !receiverDead) ==>
        handled == 0 && !crashed && ReceiverView() == old(ReceiverView())
    {
      if !isRunning || !receiverStarted || receiverDead {
        return 0, false;
      }
      ghost var v0 := ReceiverView();
      handled, crashed := ReceiveLoop(frames, loads);
      DrainLatch(v0, frames, loads);
      receiverDead := crashed;
    }
  }

  /**
   * A run through the manager: the proxy accepts the third connect attempt,
   * then reports 100 bytes for a registered port and 50 for an unknown one.
   */
  method Scenario(loads: Loads, body1: string, body2: string)
    requires loads(body1) == Some([("8388", 100)])
    requires loads(body2) == Some([("9999", 50)])
  {
    var server := new Server("127.0.0.1", 8388, map["auth" := Bool(true)]);
    server.traffic := 7;
    var m := new Manager(map[8388 := server], false, false);
    var r, slept := m.Start([false, false, true]);
    assert Retry.Accepts([false, false, true], 2);
    assert slept == [10, 100, 200];
    assert r == Ok(AwaitingAck) && m.sent == [Handshake];

    ReportTraffic(m, server, loads, body1, body2);
  }

  /** The proxy reports 100 bytes for the registered port 8388 and 50 for the unknown port 9999. */
  method ReportTraffic(m: Manager, server: Server, loads: Loads, body1: string, body2: string)
    requires m.Valid() && m.isRunning && !m.ok && m.servers == map[8388 := server] && server.traffic == 7
    requires m.receiverStarted && !m.receiverDead
    requires m.handles == Handles(Connected, Launched, true, true) && server.port == 8388
    requires loads(body1) == Some([("8388", 100)])
    requires loads(body2) == Some([("9999", 50)])
    modifies m, server
  {
    var known, unknown := "stat" + [':'] + body1, "stat" + [':'] + body2;
    ParsePortLiterals();
    KnownThenUnknownPort(map[8388 := 7], loads, known, unknown, body1, "8388", 8388, 100, body2, "9999", 9999, 50);
    assert m.Traffic() == map[8388 := 7];
    assert m.ReceiverView() == View(false, map[8388 := 7]);
    var handled, crashed := m.Receive([known, unknown], loads);
    assert m.Traffic() == map[8388 := 107];
    assert !crashed && handled == 2 && server.traffic == 107 && !m.receiverDead;

    AcknowledgeThenStop(m, server, loads);
  }

  /**
   * The receiver sees `ok`; from then on every wait returns at once, since
   * the event is never cleared. Then the manager is stopped, twice.
   */
  method AcknowledgeThenStop(m: Manager, server: Server, loads: Loads)
    requires m.Valid() && m.isRunning && m.handles == Handles(Connected, Launched, true, true) && server.port == 8388
    requires m.receiverStarted && !m.receiverDead
    modifies m, m.servers.Values, server
  {
    var ack := "ok";
    ghost var v2 := m.ReceiverView();
    assert Drain(v2, [ack], loads) == Drained(v2.(ok := true), 1, false) by {
      assert [ack][..0] == [];
    }
    var more, died := m.Receive([ack], loads);
    assert m.Await() == Acknowledged;
    var stopped := m.StopInstance(server);
    assert stopped == Ok(Acknowledged) && !server.isRunning;
    assert m.sent == old(m.sent) + [EncodeRemovePort(8388)];
    var again := m.StopInstance(server);
    assert again == Ok(Acknowledged);
    m.Stop();
    m.Stop();
    assert m.handles == Handles(Closed, Terminated, false, false) && m.receiverDead;
  }
}
