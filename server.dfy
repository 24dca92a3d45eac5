/** The value-add server's start-up (server.c): `ini_server` creates the listening server from
    a URL and remembers the protocol and broadcast group its connections get; every new
    connection is started on them; and the redirection listener decides which services the
    server provides itself once a redirected target is connected, from the services the
    target offers. Calls into other services are recorded, not performed. */
module Server {
  import opened Base
  import PeerLocator
  import opened ChannelHub

  /** The services of the target the listener looks for. */
  datatype Offered = Offered(lineNumbers: bool, symbols: bool, memoryMap: bool, pathMap: bool,
                             disassembly: bool)

  /** The build options the listener depends on: SERVICE_LineNumbers, SERVICE_Symbols,
      SERVICE_Disassembly, and ENABLE_DebugContext together with ENABLE_ContextProxy. */
  datatype Config = Config(lineNumbers: bool, symbols: bool, disassembly: bool, contextProxy: bool)

  /** The protocol a service is installed on: the host channel's or the target channel's. */
  datatype Side = OnHost | OnTarget

  /** A call the listener makes: a service initialised on one side (the path map on the
      host's protocol, with the broadcast group), or the context proxy created with its
      `forward_pm` flag. */
  datatype Call =
    | IniLineNumbers(side: Side)
    | IniSymbols(side: Side)
    | IniPathMap(group: Option<nat>)
    | IniDisassembly
    | CreateContextProxy(forwardPm: bool)

  /** What the service list offers, by name. */
  function OfferedBy(services: seq<string>): (o: Offered) {
    Offered("LineNumbers" in services, "Symbols" in services, "MemoryMap" in services,
            "PathMap" in services, "Disassembly" in services)
  }

  /** The flag loop of the listener: one pass over the target's service names. */
  method ScanServices(services: seq<string>) returns (o: Offered)
    ensures o == OfferedBy(services)
  {
    var ln, sm, mm, pm, da := false, false, false, false, false;
    var i := 0;
    while i < |services|
      invariant i <= |services|
      invariant ln == ("LineNumbers" in services[..i]) && sm == ("Symbols" in services[..i])
      invariant mm == ("MemoryMap" in services[..i]) && pm == ("PathMap" in services[..i])
      invariant da == ("Disassembly" in services[..i])
    {
      var nm := services[i];
      assert services[..i + 1] == services[..i] + [nm];
      if nm == "LineNumbers" { ln := true; }
      if nm == "Symbols" { sm := true; }
      if nm == "MemoryMap" { mm := true; }
      if nm == "PathMap" { pm := true; }
      if nm == "Disassembly" { da := true; }
      i := i + 1;
    }
    assert services[..i] == services;
    o := Offered(ln, sm, mm, pm, da);
  }

  function Opt(c: bool, call: Call): seq<Call> {
    if c then [call] else []
  }

  /** The calls of channel_redirection_listener for a target in `state` offering `o`. */
  function ListenerCalls(state: ChannelState, o: Offered, cfg: Config, group: Option<nat>): seq<Call> {
    (if state == Started then
       Opt(cfg.lineNumbers, IniLineNumbers(OnTarget)) + Opt(cfg.symbols, IniSymbols(OnTarget))
     else [])
    + (if state == Connected then ConnectedCalls(o, cfg, group) else [])
  }

  /** A connected target: the host gets the path map unless the target has path map, line
      numbers and symbols; with a memory map the host also gets the services the target
      lacks and a context proxy, which forwards path maps when the target has one but the
      host installed its own. */
  function ConnectedCalls(o: Offered, cfg: Config, group: Option<nat>): seq<Call> {
    var ownPathMap := !o.pathMap || !o.lineNumbers || !o.symbols;
    var forwardPm := ownPathMap && o.pathMap;
    Opt(ownPathMap, IniPathMap(group)) + (if o.memoryMap then HostCallsOf(o, cfg, forwardPm) else [])
  }

  /** A listening server as `channel_server` made it: the peer's properties and whether its
      `new_conn` callback is set. */
  datatype Listening = Listening(props: seq<PeerLocator.Prop>, newConnSet: bool)

  /** The properties ini_server gives the peer before the server is created. */
  function ProxyProps(peer: seq<PeerLocator.Prop>): seq<PeerLocator.Prop> {
    PeerLocator.AddProp(PeerLocator.AddProp(peer, "Name", "TCF Proxy"), "Proxy", "")
  }

  /** The properties of a listening server for `url`: the parsed ones, Name and Proxy, and
      TransportName as channel_server records it. Meaningful when the URL parses. */
  function ServerProps(url: string, env: PeerLocator.Env): seq<PeerLocator.Prop> {
    match PeerLocator.ParseUrl(url, env)
    case None => []
    case Some(ps) => PeerLocator.ServerTransport(ProxyProps(ps)).0
  }

  /** What ini_server returns for `url`. */
  function IniServerResult(url: string, env: PeerLocator.Env, backendError: Option<Err>): Result<()> {
    match PeerLocator.ParseUrl(url, env)
    case None => Fail(ErrOther)
    case Some(ps) =>
      var backend := PeerLocator.ServerTransport(ProxyProps(ps)).1;
      if backend.Fail? then Fail(backend.error)
      else if backendError.Some? then Fail(backendError.value)
      else Ok(())
  }

  /** ini_server fails exactly for an unparsable URL, an unknown transport name or a failing
      transport, with ERR_OTHER, ERR_INV_TRANSPORT or the transport's error. */
  lemma IniServerErrors(url: string, env: PeerLocator.Env, backendError: Option<Err>)
    ensures PeerLocator.ParseUrl(url, env).None? ==> IniServerResult(url, env, backendError) == Fail(ErrOther)
    ensures PeerLocator.ParseUrl(url, env).Some? ==>
              var transport := PeerLocator.GetProp(ServerProps(url, env), "TransportName");
              && transport.Some?
              && (transport.value !in {"TCP", "SSL", "PIPE", "UNIX"} ==>
                    IniServerResult(url, env, backendError) == Fail(ErrInvTransport))
              && (transport.value in {"TCP", "SSL", "PIPE", "UNIX"} ==>
                    IniServerResult(url, env, backendError) ==
                      if backendError.Some? then Fail(backendError.value) else Ok(()))
  {
  }

  /** A proxy server is announced under the name "TCF Proxy" with an empty Proxy property,
      whatever the URL said, and every other property the URL gave is kept. */
  lemma ProxyPropsNamed(ps: seq<PeerLocator.Prop>, other: string)
    ensures PeerLocator.GetProp(ProxyProps(ps), "Name") == Some("TCF Proxy")
    ensures PeerLocator.GetProp(ProxyProps(ps), "Proxy") == Some("")
    ensures other != "Name" && other != "Proxy" ==>
              PeerLocator.GetProp(ProxyProps(ps), other) == PeerLocator.GetProp(ps, other)
  {
    var named := PeerLocator.AddProp(ps, "Name", "TCF Proxy");
    PeerLocator.AddPropGet(ps, "Name", "TCF Proxy", other);
    PeerLocator.AddPropGet(named, "Proxy", "", "Name");
    PeerLocator.AddPropGet(named, "Proxy", "", other);
  }

  /** The server's globals (`proto`, `bcg`), the reference count of the protocol, the servers
      it listens with and the number of redirection listeners it registered; the channels
      live in `hub`. */
  class ProxyServer {
    var proto: Option<nat>
    var bcg: Option<nat>
    var protoRefs: nat
    var servers: seq<Listening>
    var redirectionListeners: nat
    const hub: Hub

    ghost predicate Valid()
      reads this, hub
    {
      hub.Valid()
    }

    constructor (h: Hub)
      requires h.Valid()
      ensures Valid() && hub == h && proto == None && bcg == None
      ensures protoRefs == 0 && servers == [] && redirectionListeners == 0
    {
      hub := h;
      proto, bcg, protoRefs, servers, redirectionListeners := None, None, 0, [], 0;
    }

    /** ini_server: an invalid URL fails with ERR_OTHER, and a server channel_server cannot
        create fails with its errno: ERR_INV_TRANSPORT for an unknown transport name, or
        `backendError`, the outcome of the transport's own server (external). Either way
        `proto` and `bcg` are reset. Otherwise the peer gets its Name and Proxy properties,
        the server listens with `new_conn` set, and the redirection listener is registered. */
    method IniServer(url: string, env: PeerLocator.Env, p: nat, b: nat, backendError: Option<Err>)
      returns (r: Result<()>)
      requires Valid()
      modifies this
      ensures Valid() && unchanged(this`protoRefs)
      ensures r == IniServerResult(url, env, backendError)
      ensures r.Fail? ==>
                && proto == None && bcg == None
                && unchanged(this`servers, this`redirectionListeners)
      ensures r.Ok? ==>
                && proto == Some(p) && bcg == Some(b)
                && servers == old(servers) + [Listening(ServerProps(url, env), true)]
                && redirectionListeners == old(redirectionListeners) + 1
    {
      bcg := Some(b);
      proto := Some(p);
      var ps := PeerLocator.PeerFromUrl(url, env);
      if ps.None? {
        bcg, proto := None, None;
        return Fail(ErrOther);
      }
      var props := PeerLocator.AddProp(ps.value, "Name", "TCF Proxy");
      props := PeerLocator.AddProp(props, "Proxy", "");
      var (listed, backend) := PeerLocator.ServerTransport(props);
      if backend.Fail? {
        bcg, proto := None, None;
        return Fail(backend.error);
      }
      if backendError.Some? {
        bcg, proto := None, None;
        return Fail(backendError.value);
      }
      servers := servers + [Listening(listed, true)];
      redirectionListeners := redirectionListeners + 1;
      r := Ok(());
    }

    /** channel_new_connection: the connection takes a reference to the protocol, uses it,
        joins the broadcast group and is started. */
    method NewConnection(c: nat)
      requires Valid() && proto.Some? && bcg.Some?
      requires c < |hub.states| && hub.states[c] == StartWait
      requires bcg.value < |hub.groups| && hub.live[bcg.value]
      modifies this, hub
      ensures Valid() && protoRefs == old(protoRefs) + 1
      ensures unchanged(this`proto, this`bcg, this`servers, this`redirectionListeners)
      ensures hub.hasProtocol == old(hub.hasProtocol)[c := true]
      ensures hub.bcg == old(hub.bcg)[c := bcg] && |hub.groups| == |old(hub.groups)|
      ensures hub.groups[bcg.value] == Without(old(hub.groups)[bcg.value], c) + [c]
      ensures hub.states == old(hub.states)[c := Started]
    {
      protoRefs := protoRefs + 1;
      hub.SetProtocol(c);
      hub.SetGroup(c, bcg.value);
      hub.Start(c);
    }

    /** channel_redirection_listener: the calls it makes for a target in `state` with the
        service names `services`. */
    method RedirectionListener(state: ChannelState, services: seq<string>, cfg: Config)
      returns (calls: seq<Call>)
      ensures calls == ListenerCalls(state, OfferedBy(services), cfg, bcg)
    {
      calls := [];
      if state == Started {
        if cfg.lineNumbers { calls := calls + [IniLineNumbers(OnTarget)]; }
        if cfg.symbols { calls := calls + [IniSymbols(OnTarget)]; }
      }
      if state == Connected {
        var o := ScanServices(services);
        var more := ConnectedListener(o, cfg, bcg);
        calls := calls + more;
      }
    }
  }

  /** The connected branch of the listener, for what the target offers. */
  method ConnectedListener(o: Offered, cfg: Config, group: Option<nat>) returns (calls: seq<Call>)
    ensures calls == ConnectedCalls(o, cfg, group)
  {
    var forwardPm := false;
    calls := [];
    if !o.pathMap || !o.lineNumbers || !o.symbols {
      calls := calls + [IniPathMap(group)];
      if o.pathMap { forwardPm := true; }
    }
    if o.memoryMap {
      var host := HostCalls(o, cfg, forwardPm);
      calls := calls + host;
    }
  }

  /** The services the host adds beside a target with a memory map. */
  function HostCallsOf(o: Offered, cfg: Config, forwardPm: bool): seq<Call> {
    Opt(cfg.lineNumbers && !o.lineNumbers, IniLineNumbers(OnHost))
    + Opt(cfg.symbols && !o.symbols, IniSymbols(OnHost))
    + Opt(cfg.disassembly && !o.disassembly, IniDisassembly)
    + Opt(cfg.contextProxy, CreateContextProxy(forwardPm))
  }

  method HostCalls(o: Offered, cfg: Config, forwardPm: bool) returns (calls: seq<Call>)
    ensures calls == HostCallsOf(o, cfg, forwardPm)
  {
    calls := [];
    if cfg.lineNumbers && !o.lineNumbers { calls := calls + [IniLineNumbers(OnHost)]; }
    if cfg.symbols && !o.symbols { calls := calls + [IniSymbols(OnHost)]; }
    if cfg.disassembly && !o.disassembly { calls := calls + [IniDisassembly]; }
    if cfg.contextProxy { calls := calls + [CreateContextProxy(forwardPm)]; }
  }

  // ---- what the listener promises ----

  /** A started target gets line numbers and symbols on its own protocol, and nothing else
      happens. */
  lemma StartedTarget(services: seq<string>, cfg: Config, group: Option<nat>)
    ensures var calls := ListenerCalls(Started, OfferedBy(services), cfg, group);
            && (IniLineNumbers(OnTarget) in calls <==> cfg.lineNumbers)
            && (IniSymbols(OnTarget) in calls <==> cfg.symbols)
            && |calls| <= 2
  {
  }

  /** The host installs its own path map exactly when a connected target lacks one of path
      map, line numbers and symbols. */
  lemma OwnPathMap(state: ChannelState, services: seq<string>, cfg: Config, group: Option<nat>)
    ensures IniPathMap(group) in ListenerCalls(state, OfferedBy(services), cfg, group)
            <==> state == Connected
                 && !("PathMap" in services && "LineNumbers" in services && "Symbols" in services)
  {
    var calls := ListenerCalls(state, OfferedBy(services), cfg, group);
    if state == Connected {
      var o := OfferedBy(services);
      assert calls == ConnectedCalls(o, cfg, group);
    }
  }

  /** A context proxy is created only for a connected target with a memory map, and it
      forwards path maps exactly when the target has a path map and the host installed its
      own anyway. */
  lemma ContextProxyForwarding(state: ChannelState, services: seq<string>, cfg: Config,
                               group: Option<nat>, fwd: bool)
    requires CreateContextProxy(fwd) in ListenerCalls(state, OfferedBy(services), cfg, group)
    ensures state == Connected && "MemoryMap" in services && cfg.contextProxy
    ensures fwd <==> "PathMap" in services && IniPathMap(group) in ListenerCalls(state, OfferedBy(services), cfg, group)
  {
    OwnPathMap(state, services, cfg, group);
  }

  lemma InOpt(c: bool, call: Call, x: Call)
    ensures x in Opt(c, call) <==> c && x == call
  {
  }

  /** The calls for a connected target, as the union of the single optional calls. */
  lemma InConnected(o: Offered, cfg: Config, group: Option<nat>, x: Call)
    ensures x in ConnectedCalls(o, cfg, group) <==>
            || x in Opt(!o.pathMap || !o.lineNumbers || !o.symbols, IniPathMap(group))
            || (o.memoryMap && x in HostCallsOf(o, cfg, (!o.pathMap || !o.lineNumbers || !o.symbols) && o.pathMap))
  {
  }

  lemma InHost(o: Offered, cfg: Config, fwd: bool, x: Call)
    ensures x in HostCallsOf(o, cfg, fwd) <==>
            || (cfg.lineNumbers && !o.lineNumbers && x == IniLineNumbers(OnHost))
            || (cfg.symbols && !o.symbols && x == IniSymbols(OnHost))
            || (cfg.disassembly && !o.disassembly && x == IniDisassembly)
            || (cfg.contextProxy && x == CreateContextProxy(fwd))
  {
    InOpt(cfg.lineNumbers && !o.lineNumbers, IniLineNumbers(OnHost), x);
    InOpt(cfg.symbols && !o.symbols, IniSymbols(OnHost), x);
    InOpt(cfg.disassembly && !o.disassembly, IniDisassembly, x);
    InOpt(cfg.contextProxy, CreateContextProxy(fwd), x);
  }

  /** HostFillsGaps, stated on what the target offers. */
  lemma HostGaps(o: Offered, cfg: Config, group: Option<nat>)
    requires o.memoryMap
    ensures var calls := ConnectedCalls(o, cfg, group);
            && (IniLineNumbers(OnHost) in calls <==> cfg.lineNumbers && !o.lineNumbers)
            && (IniSymbols(OnHost) in calls <==> cfg.symbols && !o.symbols)
            && (IniDisassembly in calls <==> cfg.disassembly && !o.disassembly)
            && (CreateContextProxy(false) in calls || CreateContextProxy(true) in calls <==> cfg.contextProxy)
  {
    var fwd := (!o.pathMap || !o.lineNumbers || !o.symbols) && o.pathMap;
    var own := !o.pathMap || !o.lineNumbers || !o.symbols;
    forall x: Call
      ensures x in ConnectedCalls(o, cfg, group) <==>
              || (own && x == IniPathMap(group))
              || (cfg.lineNumbers && !o.lineNumbers && x == IniLineNumbers(OnHost))
              || (cfg.symbols && !o.symbols && x == IniSymbols(OnHost))
              || (cfg.disassembly && !o.disassembly && x == IniDisassembly)
              || (cfg.contextProxy && x == CreateContextProxy(fwd))
    {
      InConnected(o, cfg, group, x);
      InOpt(own, IniPathMap(group), x);
      InHost(o, cfg, fwd, x);
    }
  }

  /** With a memory map, the host provides each optional service the connected target lacks,
      and only those. */
  lemma HostFillsGaps(services: seq<string>, cfg: Config, group: Option<nat>)
    requires "MemoryMap" in services
    ensures var calls := ListenerCalls(Connected, OfferedBy(services), cfg, group);
            && (IniLineNumbers(OnHost) in calls <==> cfg.lineNumbers && "LineNumbers" !in services)
            && (IniSymbols(OnHost) in calls <==> cfg.symbols && "Symbols" !in services)
            && (IniDisassembly in calls <==> cfg.disassembly && "Disassembly" !in services)
            && (CreateContextProxy(false) in calls || CreateContextProxy(true) in calls <==> cfg.contextProxy)
  {
    var o := OfferedBy(services);
    assert ListenerCalls(Connected, o, cfg, group) == ConnectedCalls(o, cfg, group);
    HostGaps(o, cfg, group);
  }

  /** Without a memory map the host provides at most its own path map. */
  lemma NoMemoryMap(services: seq<string>, cfg: Config, group: Option<nat>)
    requires "MemoryMap" !in services
    ensures ListenerCalls(Connected, OfferedBy(services), cfg, group) == [] ||
            ListenerCalls(Connected, OfferedBy(services), cfg, group) == [IniPathMap(group)]
  {
  }
}
