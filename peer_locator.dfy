/** The peer locator of channel.c: a locator string `TRANSPORT:HOST:PORT;K=V;...` becomes an
    ordered property list, the list is written out as a flat JSON object, and the transport
    backend is chosen by the `TransportName` property. */
module PeerLocator {
  import opened Base

  /** One property of a peer descriptor. */
  datatype Prop = Prop(name: string, value: string)

  /** What the agent asks its host about while parsing (get_os_name, get_user_name, get_agent_id). */
  datatype Env = Env(osName: string, userName: Option<string>, agentId: string)

  const DEFAULT_SERVER_NAME: string := "TCF Agent"
  const TRANSPORT_BUF: nat := 16

  // ---------------------------------------------------------------------------------------
  // The property list (peer_server_addprop / peer_server_getprop)

  function Names(ps: seq<Prop>): (r: seq<string>)
    ensures |r| == |ps|
    ensures forall i :: 0 <= i < |ps| ==> r[i] == ps[i].name
  {
    seq(|ps|, i requires 0 <= i < |ps| => ps[i].name)
  }

  /** No name occurs twice. */
  predicate UniqueNames(ps: seq<Prop>) {
    forall i, j :: 0 <= i < j < |ps| ==> ps[i].name != ps[j].name
  }

  /** Position of the first entry named `name`, or |ns| when there is none. */
  function IndexOf(ns: seq<string>, name: string): (i: nat)
    ensures i <= |ns|
    ensures i < |ns| ==> ns[i] == name
    ensures forall j :: 0 <= j < i ==> ns[j] != name
  {
    if ns == [] then 0
    else if ns[0] == name then 0
    else 1 + IndexOf(ns[1..], name)
  }

  /** The value stored under `name`, if any (the first entry that carries it). */
  function GetProp(ps: seq<Prop>, name: string): Option<string> {
    var i := IndexOf(Names(ps), name);
    if i < |ps| then Some(ps[i].value) else None
  }

  /** Records `name -> value`: an existing entry of that name gets the new value in place,
      otherwise the pair is appended at the end. */
  function AddProp(ps: seq<Prop>, name: string, value: string): (r: seq<Prop>)
    ensures |r| == |ps| || r == ps + [Prop(name, value)]
  {
    var i := IndexOf(Names(ps), name);
    if i < |ps| then ps[i := Prop(name, value)] else ps + [Prop(name, value)]
  }

  lemma IndexOfUnique(ns: seq<string>, name: string, i: nat)
    requires i <= |ns|
    requires i < |ns| ==> ns[i] == name
    requires forall j :: 0 <= j < i ==> ns[j] != name
    ensures IndexOf(ns, name) == i
  {
  }

  lemma AddPropGet(ps: seq<Prop>, name: string, value: string, other: string)
    ensures GetProp(AddProp(ps, name, value), name) == Some(value)
    ensures other != name ==> GetProp(AddProp(ps, name, value), other) == GetProp(ps, other)
  {
    var r := AddProp(ps, name, value);
    var i := IndexOf(Names(ps), name);
    var io := IndexOf(Names(ps), other);
    if i < |ps| {
      assert Names(r) == Names(ps);
    } else {
      assert Names(r) == Names(ps) + [name];
      IndexOfUnique(Names(r), name, i);
      if other != name {
        IndexOfUnique(Names(r), other, if io < |ps| then io else |r|);
      }
    }
  }

  /** Adding never reorders: the names already present keep their positions, and a new
      name goes to the end. */
  lemma AddPropNames(ps: seq<Prop>, name: string, value: string)
    ensures name in Names(ps) ==> Names(AddProp(ps, name, value)) == Names(ps)
    ensures name !in Names(ps) ==> Names(AddProp(ps, name, value)) == Names(ps) + [name]
    ensures UniqueNames(ps) ==> UniqueNames(AddProp(ps, name, value))
  {
    var i := IndexOf(Names(ps), name);
    var r := AddProp(ps, name, value);
    if i < |ps| {
      assert Names(r) == Names(ps);
    } else {
      assert name !in Names(ps);
      assert Names(r) == Names(ps) + [name];
      if UniqueNames(ps) {
        forall a, b | 0 <= a < b < |r| ensures r[a].name != r[b].name {
          if b == |ps| { assert Names(ps)[a] == r[a].name; }
        }
      }
    }
  }

  /** Adds `ex` one by one, in order. */
  function AddAll(ps: seq<Prop>, ex: seq<Prop>): seq<Prop>
    decreases |ex|
  {
    if ex == [] then ps
    else AddProp(AddAll(ps, ex[..|ex| - 1]), ex[|ex| - 1].name, ex[|ex| - 1].value)
  }

  lemma AddAllSnoc(ps: seq<Prop>, ex: seq<Prop>, p: Prop)
    ensures AddAll(ps, ex + [p]) == AddProp(AddAll(ps, ex), p.name, p.value)
  {
    assert (ex + [p])[..|ex|] == ex;
  }

  lemma {:induction false} AddAllNamesPrefix(ps: seq<Prop>, ex: seq<Prop>)
    ensures |AddAll(ps, ex)| >= |ps|
    ensures Names(AddAll(ps, ex))[..|ps|] == Names(ps)
    decreases |ex|
  {
    if ex != [] {
      var front := ex[..|ex| - 1];
      AddAllNamesPrefix(ps, front);
      var q := AddAll(ps, front);
      AddPropNames(q, ex[|ex| - 1].name, ex[|ex| - 1].value);
      assert Names(q)[..|ps|] == Names(ps);
    }
  }

  /** The properties every parse starts with. */
  function Defaults(env: Env): (r: seq<Prop>)
    ensures UniqueNames(r)
  {
    [Prop("Name", DEFAULT_SERVER_NAME), Prop("OSName", env.osName)]
    + (if env.userName.Some? then [Prop("UserName", env.userName.value)] else [])
    + [Prop("AgentID", env.agentId)]
  }

  // ---------------------------------------------------------------------------------------
  // The locator grammar, as a specification

  /** C isalpha in the "C" locale. */
  predicate IsAlpha(c: char) { 'a' <= c <= 'z' || 'A' <= c <= 'Z' }

  function ToUpper(c: char): char {
    if 'a' <= c <= 'z' then (c as int - 'a' as int + 'A' as int) as char else c
  }

  function Upper(s: string): (r: string)
    ensures |r| == |s|
  {
    seq(|s|, j requires 0 <= j < |s| => ToUpper(s[j]))
  }

  /** The first position at or after `i` that holds one of `stops`, or |s| when there is
      none: the scan `while (*s && *s != c) s++`. */
  function ScanTo(s: string, i: nat, stops: set<char>): (e: nat)
    requires i <= |s|
    ensures i <= e <= |s|
    decreases |s| - i
  {
    if i == |s| || s[i] in stops then i else ScanTo(s, i + 1, stops)
  }

  /** Where the transport scan stops: at the first non-letter, or once 16 letters are read. */
  function LetterEnd(s: string, i: nat): (e: nat)
    requires i <= |s| && i <= TRANSPORT_BUF
    ensures i <= e <= |s| && e <= TRANSPORT_BUF
    decreases |s| - i
  {
    if i < |s| && IsAlpha(s[i]) && i < TRANSPORT_BUF then LetterEnd(s, i + 1) else i
  }

  /** `ex` followed by the properties of a tail, or failure if the tail is malformed. */
  function Extend(ex: seq<Prop>, rest: Option<seq<Prop>>): Option<seq<Prop>> {
    match rest
    case None => None
    case Some(kv) => Some(ex + kv)
  }

  /** The `;KEY=VALUE` tail from position `i`: each key is non-empty and runs to the first '=',
      each value runs to the next ';'. Anything else makes the whole locator invalid. */
  function Params(s: string, i: nat): Option<seq<Prop>>
    requires i <= |s|
    decreases |s| - i
  {
    if i == |s| then Some([])
    else if s[i] != ';' then None
    else
      var e := ScanTo(s, i + 1, {'='});
      if e == |s| || e == i + 1 then None
      else
        var v := ScanTo(s, e + 1, {';'});
        Extend([Prop(s[i + 1..e], s[e + 1..v])], Params(s, v))
  }

  /** The properties the locator string itself contributes, in the order they are added:
      an optional `TRANSPORT:` prefix (only when at most 15 letters precede the ':'), then
      the host, port and parameters. */
  function Explicit(url: string): Option<seq<Prop>> {
    var k := LetterEnd(url, 0);
    if k < |url| && url[k] == ':' && k < TRANSPORT_BUF then
      Extend([Prop("TransportName", Upper(url[..k]))], HostPart(url, k + 1))
    else HostPart(url, 0)
  }

  /** The host runs to the first ':' or ';' and is recorded only when non-empty. */
  function HostPart(s: string, i: nat): Option<seq<Prop>>
    requires i <= |s|
  {
    var h := ScanTo(s, i, {':', ';'});
    Extend(if h > i then [Prop("Host", s[i..h])] else [], PortPart(s, h))
  }

  /** After ':' the port runs to the first ';' and is recorded only when non-empty. */
  function PortPart(s: string, i: nat): Option<seq<Prop>>
    requires i <= |s|
  {
    if i < |s| && s[i] == ':' then
      var p := ScanTo(s, i + 1, {';'});
      Extend(if p > i + 1 then [Prop("Port", s[i + 1..p])] else [], Params(s, p))
    else Params(s, i)
  }

  /** Adds each explicit property to `base` in order, or fails with the locator. */
  function Finish(base: seq<Prop>, x: Option<seq<Prop>>): Option<seq<Prop>> {
    match x
    case None => None
    case Some(ex) => Some(AddAll(base, ex))
  }

  /** What channel_peer_from_url yields: the defaults, then each explicit property added. */
  function ParseUrl(url: string, env: Env): Option<seq<Prop>> {
    Finish(Defaults(env), Explicit(url))
  }

  // ---------------------------------------------------------------------------------------
  // The parser as the agent runs it

  lemma ExtendNil(x: Option<seq<Prop>>)
    ensures Extend([], x) == x
  {
    if x.Some? {
      assert [] + x.value == x.value;
    }
  }

  lemma ExtendAssoc(a: seq<Prop>, b: seq<Prop>, x: Option<seq<Prop>>)
    ensures Extend(a, Extend(b, x)) == Extend(a + b, x)
  {
    if x.Some? {
      assert a + (b + x.value) == (a + b) + x.value;
    }
  }

  /** The scan `while (*s && *s != c...) s++` starting at `from`. */
  method SkipUntil(url: string, from: nat, stops: set<char>) returns (e: nat)
    requires from <= |url|
    ensures e == ScanTo(url, from, stops)
  {
    e := from;
    while e < |url| && url[e] !in stops
      invariant from <= e <= |url|
      invariant ScanTo(url, e, stops) == ScanTo(url, from, stops)
    {
      e := e + 1;
    }
  }

  /** The transport scan: at most 16 letters, upper-cased into the transport buffer. */
  method ScanTransport(url: string) returns (transport: string, s: nat)
    ensures s == LetterEnd(url, 0)
    ensures transport == Upper(url[..s])
  {
    transport := [];
    s := 0;
    while s < |url| && IsAlpha(url[s]) && |transport| < TRANSPORT_BUF
      invariant s == |transport| <= TRANSPORT_BUF && s <= |url|
      invariant LetterEnd(url, s) == LetterEnd(url, 0)
      invariant transport == Upper(url[..s])
    {
      assert url[..s + 1] == url[..s] + [url[s]];
      transport := transport + [ToUpper(url[s])];
      s := s + 1;
    }
  }

  /** One `;KEY=VALUE` segment at `semi`, read as Params reads it. */
  lemma SegmentStep(url: string, semi: nat, eq: nat, c: nat)
    requires semi < |url| && url[semi] == ';'
    requires eq == ScanTo(url, semi + 1, {'='}) && eq != |url| && eq != semi + 1
    requires c == ScanTo(url, eq + 1, {';'})
    ensures Params(url, semi) == Extend([Prop(url[semi + 1..eq], url[eq + 1..c])], Params(url, c))
  {
  }

  /** A segment without '=' or with an empty key makes the parameters malformed. */
  lemma BadSegment(url: string, semi: nat, eq: nat)
    requires semi < |url| && url[semi] == ';'
    requires eq == ScanTo(url, semi + 1, {'='}) && (eq == |url| || eq == semi + 1)
    ensures Params(url, semi) == None
  {
  }

  /** The `;KEY=VALUE` loop: `ps` already holds `base` with `ex` added. */
  method AddParams(url: string, s: nat, ps: seq<Prop>, ghost base: seq<Prop>, ghost ex: seq<Prop>)
      returns (r: Option<seq<Prop>>)
    requires s <= |url|
    requires ps == AddAll(base, ex)
    ensures r == Finish(base, Extend(ex, Params(url, s)))
  {
    var i := s;
    var cur := ps;
    ghost var done := ex;
    while i < |url| && url[i] == ';'
      invariant i <= |url|
      invariant cur == AddAll(base, done)
      invariant Extend(ex, Params(url, s)) == Extend(done, Params(url, i))
      decreases |url| - i
    {
      var semi := i;
      var eq := SkipUntil(url, i + 1, {'='});
      if eq == |url| || eq == semi + 1 {
        // the agent backs up to the ';' of the bad segment, which is not the terminator
        BadSegment(url, semi, eq);
        i := semi;
        break;
      }
      var name := url[semi + 1..eq];
      i := SkipUntil(url, eq + 1, {';'});
      var value := url[eq + 1..i];
      SegmentStep(url, semi, eq, i);
      ExtendAssoc(done, [Prop(name, value)], Params(url, i));
      AddAllSnoc(base, done, Prop(name, value));
      cur := AddProp(cur, name, value);
      done := done + [Prop(name, value)];
    }
    if i != |url| {
      assert Params(url, i) == None;
      return None;
    }
    assert done + [] == done;
    return Some(cur);
  }

  /** channel_peer_from_url: the default properties, then whatever the locator adds. */
  method PeerFromUrl(url: string, env: Env) returns (r: Option<seq<Prop>>)
    ensures r == ParseUrl(url, env)
  {
    var ps := [Prop("Name", DEFAULT_SERVER_NAME), Prop("OSName", env.osName)];
    if env.userName.Some? {
      ps := ps + [Prop("UserName", env.userName.value)];
    }
    ps := ps + [Prop("AgentID", env.agentId)];
    assert ps == Defaults(env);
    r := AddLocator(url, ps);
  }

  /** The scan of the locator string itself, adding to the descriptor `base`. */
  method AddLocator(url: string, base: seq<Prop>) returns (r: Option<seq<Prop>>)
    ensures r == Finish(base, Explicit(url))
  {
    var transport, s := ScanTransport(url);
    if s < |url| && url[s] == ':' && |transport| < TRANSPORT_BUF {
      var ps := AddProp(base, "TransportName", transport);
      AddAllSnoc(base, [], Prop("TransportName", transport));
      assert [] + [Prop("TransportName", transport)] == [Prop("TransportName", transport)];
      r := AddHostPort(url, s + 1, ps, base, [Prop("TransportName", transport)]);
    } else {
      ExtendNil(HostPart(url, 0));
      r := AddHostPort(url, 0, base, base, []);
    }
  }

  /** The host scan from `start`: `ps` already holds `base` with `ex` added. */
  method AddHostPort(url: string, start: nat, ps: seq<Prop>, ghost base: seq<Prop>, ghost ex: seq<Prop>)
      returns (r: Option<seq<Prop>>)
    requires start <= |url|
    requires ps == AddAll(base, ex)
    ensures r == Finish(base, Extend(ex, HostPart(url, start)))
  {
    var s := SkipUntil(url, start, {':', ';'});
    HostStep(url, start, s, url[start..s]);
    if s != start {
      var host := Prop("Host", url[start..s]);
      ExtendAssoc(ex, [host], PortPart(url, s));
      AddAllSnoc(base, ex, host);
      r := AddPort(url, s, AddProp(ps, host.name, host.value), base, ex + [host]);
    } else {
      ExtendNil(PortPart(url, s));
      r := AddPort(url, s, ps, base, ex);
    }
  }

  /** The optional `:PORT` at `s`, then the parameters. */
  method AddPort(url: string, s: nat, ps: seq<Prop>, ghost base: seq<Prop>, ghost ex: seq<Prop>)
      returns (r: Option<seq<Prop>>)
    requires s <= |url|
    requires ps == AddAll(base, ex)
    ensures r == Finish(base, Extend(ex, PortPart(url, s)))
  {
    if s < |url| && url[s] == ':' {
      var e := SkipUntil(url, s + 1, {';'});
      PortStep(url, s, e, url[s + 1..e]);
      if e != s + 1 {
        var port := Prop("Port", url[s + 1..e]);
        ExtendAssoc(ex, [port], Params(url, e));
        AddAllSnoc(base, ex, port);
        r := AddParams(url, e, AddProp(ps, port.name, port.value), base, ex + [port]);
      } else {
        ExtendNil(Params(url, e));
        r := AddParams(url, e, ps, base, ex);
      }
    } else {
      r := AddParams(url, s, ps, base, ex);
    }
  }

  // ---------------------------------------------------------------------------------------
  // Properties of the parse

  /** A successful parse begins with Name, OSName, UserName (when known) and AgentID, in that
      order, before anything the string contributes. */
  lemma ParseStartsWithDefaults(url: string, env: Env)
    requires ParseUrl(url, env).Some?
    ensures |ParseUrl(url, env).value| >= |Defaults(env)|
    ensures Names(ParseUrl(url, env).value)[..|Defaults(env)|]
         == ["Name", "OSName"] + (if env.userName.Some? then ["UserName"] else []) + ["AgentID"]
  {
    AddAllNamesPrefix(Defaults(env), Explicit(url).value);
    assert Names(Defaults(env))
        == ["Name", "OSName"] + (if env.userName.Some? then ["UserName"] else []) + ["AgentID"];
  }

  /** "bad;;;" has an empty key after the host, so the whole locator is rejected. */
  lemma BadLocatorRejected(env: Env)
    ensures ParseUrl("bad;;;", env) == None
  {
    var url := "bad;;;";
    assert LetterEnd(url, 0) == 3 by {
      assert LetterEnd(url, 3) == 3;
    }
    assert ScanTo(url, 0, {':', ';'}) == 3 by {
      assert ScanTo(url, 3, {':', ';'}) == 3;
    }
    assert ScanTo(url, 4, {'='}) == 6 by {
      assert ScanTo(url, 6, {'='}) == 6;
    }
  }

  /** A locator written in the documented form. */
  datatype Locator = Locator(transport: string, host: string, port: string, params: seq<Prop>)

  predicate NoneOf(s: string, cs: set<char>) { forall j :: 0 <= j < |s| ==> s[j] !in cs }

  /** A parameter that reads back unchanged: a non-empty key free of '=', a value free of ';'. */
  predicate ParamOk(p: Prop) { p.name != [] && NoneOf(p.name, {'='}) && NoneOf(p.value, {';'}) }

  /** The forms that read back unchanged: an upper-case transport of at most 15 letters,
      a host without ':' or ';', a port without ';', and well-formed parameters. */
  predicate WellFormed(l: Locator) {
    && |l.transport| < TRANSPORT_BUF
    && (forall j :: 0 <= j < |l.transport| ==> 'A' <= l.transport[j] <= 'Z')
    && NoneOf(l.host, {':', ';'})
    && NoneOf(l.port, {';'})
    && forall i :: 0 <= i < |l.params| ==> ParamOk(l.params[i])
  }

  function ParamsText(kv: seq<Prop>): string {
    if kv == [] then []
    else [';'] + (kv[0].name + (['='] + (kv[0].value + ParamsText(kv[1..]))))
  }

  function PortText(port: string): string {
    if port != [] then [':'] + port else []
  }

  /** The locator written out as TRANSPORT:HOST[:PORT][;KEY=VALUE]... */
  function Format(l: Locator): string {
    l.transport + ([':'] + (l.host + (PortText(l.port) + ParamsText(l.params))))
  }

  /** The properties a locator stands for, in the order the parser adds them. */
  function Fields(l: Locator): seq<Prop> {
    [Prop("TransportName", l.transport)] + (OptProp("Host", l.host) + (OptProp("Port", l.port) + l.params))
  }

  /** A property the parser records only when its value is non-empty. */
  function OptProp(name: string, value: string): seq<Prop> {
    if value != [] then [Prop(name, value)] else []
  }

  lemma ScanToIs(s: string, i: nat, e: nat, stops: set<char>)
    requires i <= e <= |s|
    requires forall j :: i <= j < e ==> s[j] !in stops
    requires e < |s| ==> s[e] in stops
    ensures ScanTo(s, i, stops) == e
    decreases e - i
  {
    if i < e {
      ScanToIs(s, i + 1, e, stops);
    }
  }

  lemma SliceOfSlice(s: string, i: nat, a: nat, b: nat)
    requires i + a <= i + b <= |s|
    ensures s[i..][a..b] == s[i + a..i + b]
  {
  }

  /** The character `c` written at position i. */
  lemma CharAt(s: string, i: nat, c: char, post: string)
    requires i <= |s| && s[i..] == [c] + post
    ensures i < |s| && s[i] == c && s[i + 1..] == post
  {
    assert s[i] == s[i..][0];
    assert s[i + 1..] == s[i..][1..];
  }

  /** A word free of `stops` written at position i: the scan from i stops right after it. */
  lemma WordAt(s: string, i: nat, w: string, post: string, stops: set<char>)
    requires i <= |s| && s[i..] == w + post
    requires NoneOf(w, stops)
    requires post == [] || post[0] in stops
    ensures i + |w| <= |s|
    ensures ScanTo(s, i, stops) == i + |w|
    ensures s[i..i + |w|] == w && s[i + |w|..] == post
  {
    var x := s[i..];
    forall j | i <= j < i + |w| ensures s[j] !in stops {
      assert s[j] == x[j - i] == w[j - i];
    }
    if i + |w| < |s| {
      assert s[i + |w|] == x[|w|] == post[0];
    }
    ScanToIs(s, i, i + |w|, stops);
    SliceOfSlice(s, i, 0, |w|);
    SliceOfSlice(s, i, |w|, |x|);
    assert x[..|w|] == w && x[|w|..] == post;
  }

  /** Reading one segment `;key=value` whose '=' is at e and whose value ends at c. */
  lemma ParamsStep(s: string, i: nat, e: nat, c: nat)
    requires i + 1 < e < c + 1 && c <= |s| && e < |s|
    requires s[i] == ';' && s[e] == '='
    requires ScanTo(s, i + 1, {'='}) == e
    requires ScanTo(s, e + 1, {';'}) == c
    ensures Params(s, i) == Extend([Prop(s[i + 1..e], s[e + 1..c])], Params(s, c))
  {
  }

  /** Where the pieces of a segment `;k=v` written at position i of `s` lie. */
  lemma SegmentAt(s: string, i: nat, k: string, v: string, rest: string)
    requires i <= |s| && s[i..] == [';'] + (k + (['='] + (v + rest)))
    requires NoneOf(k, {'='}) && NoneOf(v, {';'})
    requires rest == [] || rest[0] == ';'
    ensures i + 2 + |k| + |v| <= |s|
    ensures s[i] == ';' && s[i + 1 + |k|] == '='
    ensures ScanTo(s, i + 1, {'='}) == i + 1 + |k|
    ensures ScanTo(s, i + 2 + |k|, {';'}) == i + 2 + |k| + |v|
    ensures s[i + 1..i + 1 + |k|] == k && s[i + 2 + |k|..i + 2 + |k| + |v|] == v
    ensures s[i + 2 + |k| + |v|..] == rest
  {
    var e := i + 1 + |k|;
    var post := ['='] + (v + rest);
    assert [';'] + (k + (['='] + (v + rest))) == [';'] + (k + post);
    MarkedWordAt(s, i, ';', k, post, {'='});
    MarkedWordAt(s, e, '=', v, rest, {';'});
  }

  /** A character `c`, then a word free of `stops` at position i. */
  lemma MarkedWordAt(s: string, i: nat, c: char, w: string, post: string, stops: set<char>)
    requires i <= |s| && s[i..] == [c] + (w + post)
    requires NoneOf(w, stops)
    requires post == [] || post[0] in stops
    ensures i + 1 + |w| <= |s| && s[i] == c
    ensures ScanTo(s, i + 1, stops) == i + 1 + |w|
    ensures s[i + 1..i + 1 + |w|] == w && s[i + 1 + |w|..] == post
  {
    CharAt(s, i, c, w + post);
    WordAt(s, i + 1, w, post, stops);
  }

  lemma {:induction false} ParamsAt(s: string, i: nat, kv: seq<Prop>)
    requires i <= |s| && s[i..] == ParamsText(kv)
    requires forall n :: 0 <= n < |kv| ==> ParamOk(kv[n])
    ensures Params(s, i) == Some(kv)
    decreases |kv|
  {
    if kv == [] {
      assert |s[i..]| == 0;
    } else {
      ParamsTailOk(kv);
      var c := ParamsHead(s, i, kv);
      ParamsAt(s, c, kv[1..]);
      assert [kv[0]] + kv[1..] == kv;
    }
  }

  lemma ParamsTailOk(kv: seq<Prop>)
    requires kv != [] && forall n :: 0 <= n < |kv| ==> ParamOk(kv[n])
    ensures ParamOk(kv[0]) && forall n :: 0 <= n < |kv[1..]| ==> ParamOk(kv[1..][n])
  {
    forall n | 0 <= n < |kv[1..]|
      ensures ParamOk(kv[1..][n])
    {
      assert kv[1..][n] == kv[n + 1];
    }
  }

  /** The first segment of a parameter text written at position i reads back as its property;
      the rest of the text starts at c. */
  lemma ParamsHead(s: string, i: nat, kv: seq<Prop>) returns (c: nat)
    requires i <= |s| && s[i..] == ParamsText(kv)
    requires kv != [] && ParamOk(kv[0])
    ensures c <= |s| && s[c..] == ParamsText(kv[1..])
    ensures Params(s, i) == Extend([kv[0]], Params(s, c))
  {
    var k, v := kv[0].name, kv[0].value;
    var e := i + 1 + |k|;
    c := i + 2 + |k| + |v|;
    assert ParamsText(kv) == [';'] + (k + (['='] + (v + ParamsText(kv[1..]))));
    SegmentAt(s, i, k, v, ParamsText(kv[1..]));
    ParamsStep(s, i, e, c);
  }

  lemma {:induction false} LetterEndIs(s: string, i: nat, e: nat)
    requires i <= e <= |s| && e <= TRANSPORT_BUF
    requires forall j :: i <= j < e ==> IsAlpha(s[j])
    requires e < |s| && e < TRANSPORT_BUF ==> !IsAlpha(s[e])
    ensures LetterEnd(s, i) == e
    decreases e - i
  {
    if i < e {
      LetterEndIs(s, i + 1, e);
    }
  }

  lemma HostStep(s: string, i: nat, h: nat, host: string)
    requires i <= h <= |s| && ScanTo(s, i, {':', ';'}) == h
    requires s[i..h] == host
    ensures HostPart(s, i) == Extend(OptProp("Host", host), PortPart(s, h))
  {
  }

  lemma PortStep(s: string, h: nat, c: nat, port: string)
    requires h < c <= |s| && s[h] == ':' && ScanTo(s, h + 1, {';'}) == c
    requires s[h + 1..c] == port
    ensures PortPart(s, h) == Extend(OptProp("Port", port), Params(s, c))
  {
  }

  lemma NoPortStep(s: string, h: nat)
    requires h <= |s| && (h == |s| || s[h] == ';')
    ensures PortPart(s, h) == Params(s, h)
  {
  }

  /** Port and parameters written at position h of `s` read back as their fields. */
  lemma PortAt(s: string, h: nat, l: Locator)
    requires WellFormed(l)
    requires h <= |s| && s[h..] == PortText(l.port) + ParamsText(l.params)
    ensures PortPart(s, h) == Some(OptProp("Port", l.port) + l.params)
  {
    var text := ParamsText(l.params);
    assert text == [] || text[0] == ';';
    if l.port != [] {
      var c := h + 1 + |l.port|;
      assert s[h..] == [':'] + (l.port + text);
      CharAt(s, h, ':', l.port + text);
      WordAt(s, h + 1, l.port, text, {';'});
      PortStep(s, h, c, l.port);
      ParamsAt(s, c, l.params);
    } else {
      assert s[h..] == text;
      assert h < |s| ==> s[h] == s[h..][0];
      NoPortStep(s, h);
      ParamsAt(s, h, l.params);
      assert OptProp("Port", l.port) + l.params == l.params;
    }
  }

  /** Host, port and parameters written at position i of `s` read back as their fields. */
  lemma HostPortAt(s: string, i: nat, l: Locator)
    requires WellFormed(l)
    requires i <= |s| && s[i..] == l.host + (PortText(l.port) + ParamsText(l.params))
    ensures HostPart(s, i) == Some(OptProp("Host", l.host) + (OptProp("Port", l.port) + l.params))
  {
    var h := i + |l.host|;
    var pRest := PortText(l.port) + ParamsText(l.params);
    assert pRest == [] || pRest[0] in {':', ';'};
    WordAt(s, i, l.host, pRest, {':', ';'});
    HostStep(s, i, h, l.host);
    PortAt(s, h, l);
  }

  /** Writing a well-formed locator and parsing it back gives exactly its properties. */
  lemma FormatParseRoundTrip(l: Locator)
    requires WellFormed(l)
    ensures Explicit(Format(l)) == Some(Fields(l))
  {
    var url := Format(l);
    var n := |l.transport|;
    TransportAt(l);
    ExplicitWithTransport(url, n);
    UpperOfUpper(l.transport);
    HostPortAt(url, n + 1, l);
  }

  /** A locator whose transport is read up to the ':' at n. */
  lemma ExplicitWithTransport(url: string, n: nat)
    requires n < |url| && url[n] == ':' && n < TRANSPORT_BUF && LetterEnd(url, 0) == n
    ensures Explicit(url) == Extend([Prop("TransportName", Upper(url[..n]))], HostPart(url, n + 1))
  {
  }

  /** The transport of a written locator is read as the letters before the first ':'. */
  lemma TransportAt(l: Locator)
    requires WellFormed(l)
    ensures var url, n := Format(l), |l.transport|;
      && n < |url| && url[n] == ':' && n < TRANSPORT_BUF
      && LetterEnd(url, 0) == n && url[..n] == l.transport
      && url[n + 1..] == l.host + (PortText(l.port) + ParamsText(l.params))
  {
    var url := Format(l);
    var tail := l.host + (PortText(l.port) + ParamsText(l.params));
    var n := |l.transport|;
    forall j | 0 <= j < n ensures IsAlpha(url[j]) {
      assert url[j] == l.transport[j];
    }
    assert url[n..] == [':'] + tail;
    CharAt(url, n, ':', tail);
    LetterEndIs(url, 0, n);
    assert url[..n] == l.transport;
  }

  /** Upper case letters are left as they are. */
  lemma UpperOfUpper(t: string)
    requires forall j :: 0 <= j < |t| ==> 'A' <= t[j] <= 'Z'
    ensures Upper(t) == t
  {
  }

  /** The example from the agent's documentation. */
  lemma TcpExample(url: string)
    requires url == "TCP:localhost:1534;Test=1"
    ensures Explicit(url)
         == Some([Prop("TransportName", "TCP"), Prop("Host", "localhost"),
                  Prop("Port", "1534"), Prop("Test", "1")])
  {
    var l := Locator("TCP", "localhost", "1534", [Prop("Test", "1")]);
    TcpExampleText(l);
    TcpExampleWellFormed(l);
    TcpExampleFields(l);
    FormatParseRoundTrip(l);
  }

  lemma TcpExampleText(l: Locator)
    requires l == Locator("TCP", "localhost", "1534", [Prop("Test", "1")])
    ensures Format(l) == "TCP:localhost:1534;Test=1"
  {
    assert ParamsText(l.params) == ";Test=1";
  }

  lemma TcpExampleWellFormed(l: Locator)
    requires l == Locator("TCP", "localhost", "1534", [Prop("Test", "1")])
    ensures WellFormed(l)
  {
    assert ParamOk(l.params[0]);
  }

  lemma TcpExampleFields(l: Locator)
    requires l == Locator("TCP", "localhost", "1534", [Prop("Test", "1")])
    ensures Fields(l) == [Prop("TransportName", "TCP"), Prop("Host", "localhost"),
                          Prop("Port", "1534"), Prop("Test", "1")]
  {
    var host, port := Prop("Host", "localhost"), Prop("Port", "1534");
    assert OptProp("Host", "localhost") == [host];
    assert OptProp("Port", "1534") == [port];
  }

  // ---------------------------------------------------------------------------------------
  // channel_peer_to_json

  /** One JSON member; string escaping is the external json_write_string, passed in as `quote`. */
  function Member(p: Prop, quote: string -> string): string {
    quote(p.name) + ":" + quote(p.value)
  }

  /** Members separated by ',' — the JSON object body (section 4 of RFC 8259). */
  function JoinMembers(ps: seq<Prop>, quote: string -> string): string
    decreases |ps|
  {
    if ps == [] then []
    else if |ps| == 1 then Member(ps[0], quote)
    else JoinMembers(ps[..|ps| - 1], quote) + "," + Member(ps[|ps| - 1], quote)
  }

  /** The serialised object, NUL-terminated as the agent returns it. */
  method PeerToJson(ps: seq<Prop>, quote: string -> string) returns (r: string)
    ensures r == "{" + JoinMembers(ps, quote) + "}" + ['\0']
  {
    r := "{";
    var i := 0;
    while i < |ps|
      invariant i <= |ps|
      invariant r == "{" + JoinMembers(ps[..i], quote)
    {
      if i > 0 {
        r := r + ",";
      }
      r := r + quote(ps[i].name);
      r := r + ":";
      r := r + quote(ps[i].value);
      assert ps[..i + 1][..i] == ps[..i];
      i := i + 1;
    }
    assert ps[..i] == ps;
    r := r + "}";
    r := r + ['\0'];
  }

  /** Each property contributes exactly its own member, in list order: the object for
      `ps + [p]` is the object for `ps` followed by `,` and `p`'s member. */
  lemma JoinMembersAppend(ps: seq<Prop>, p: Prop, quote: string -> string)
    requires ps != []
    ensures JoinMembers(ps + [p], quote) == JoinMembers(ps, quote) + "," + Member(p, quote)
  {
    assert (ps + [p])[..|ps|] == ps;
  }

  // ---------------------------------------------------------------------------------------
  // Transport selection (channel_server / channel_connect)

  datatype Backend = TcpBackend | PipeBackend | UnixBackend

  function BackendOf(name: string): Result<Backend> {
    if name == "TCP" || name == "SSL" then Ok(TcpBackend)
    else if name == "PIPE" then Ok(PipeBackend)
    else if name == "UNIX" then Ok(UnixBackend)
    else Fail(ErrInvTransport)
  }

  /** channel_server: an absent TransportName becomes "TCP" and is recorded in the list;
      then the name picks the backend or the call fails with ERR_INV_TRANSPORT. */
  function ServerTransport(ps: seq<Prop>): (r: (seq<Prop>, Result<Backend>))
    ensures GetProp(r.0, "TransportName").Some?
    ensures GetProp(ps, "TransportName").Some? ==> r.0 == ps
    ensures GetProp(ps, "TransportName") == None ==>
      r.0 == AddProp(ps, "TransportName", "TCP") && r.1 == Ok(TcpBackend)
    ensures r.1.Ok? <==> GetProp(r.0, "TransportName").value in {"TCP", "SSL", "PIPE", "UNIX"}
    ensures r.1.Fail? ==> r.1.error == ErrInvTransport
  {
    match GetProp(ps, "TransportName")
    case None =>
      AddPropGet(ps, "TransportName", "TCP", "TransportName");
      (AddProp(ps, "TransportName", "TCP"), Ok(TcpBackend))
    case Some(name) => (ps, BackendOf(name))
  }

  /** channel_connect: an absent TransportName means TCP, nothing is recorded. */
  function ConnectTransport(ps: seq<Prop>): (r: Result<Backend>)
    ensures GetProp(ps, "TransportName") == None ==> r == Ok(TcpBackend)
  {
    match GetProp(ps, "TransportName")
    case None => Ok(TcpBackend)
    case Some(name) => BackendOf(name)
  }

  /** Listening and connecting agree on the backend for every descriptor. */
  lemma ServerConnectAgree(ps: seq<Prop>)
    ensures ServerTransport(ps).1 == ConnectTransport(ps)
  {
  }
}
