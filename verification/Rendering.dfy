/** The target addresses generated from an EndpointSlice (pkg/prober/registry.go, lines 121-145). */
module Rendering {
  import opened Bytes
  import Decimal
  import opened Targets

  const COLON: Byte := 58
  const SLASH: Byte := 47
  const MINUS: Byte := 45

  const DEFAULT_PORT: int := 80

  function PrintPort(port: int): Str
  {
    if port < 0 then [MINUS] + Decimal.Print(-port) else Decimal.Print(port)
  }

  /** `scheme://ip:port` followed by the path. */
  function Address(scheme: Str, ip: Str, port: int, path: Str): Str
  {
    scheme + [COLON, SLASH, SLASH] + ip + [COLON] + PrintPort(port) + path
  }

  // ---------------------------------------------------------------- derivation

  function SomePorts(ports: seq<Option<int>>): seq<int>
  {
    if ports == [] then [] else
      var last := ports[|ports| - 1];
      SomePorts(ports[..|ports| - 1]) + (if last.Some? then [last.value] else [])
  }

  /** A slice without ports is probed on port 80; otherwise its nil ports are skipped. */
  function ActivePorts(ports: seq<Option<int>>): seq<int>
  {
    if ports == [] then [DEFAULT_PORT] else SomePorts(ports)
  }

  function OnPort(scheme: Str, path: Str, port: int, ips: seq<Str>): seq<Str>
  {
    seq(|ips|, i requires 0 <= i < |ips| => Address(scheme, ips[i], port, path))
  }

  function OnPorts(scheme: Str, path: Str, ports: seq<int>, ips: seq<Str>): seq<Str>
  {
    if ports == [] then [] else
      OnPorts(scheme, path, ports[..|ports| - 1], ips) + OnPort(scheme, path, ports[|ports| - 1], ips)
  }

  function OfEndpoints(scheme: Str, path: Str, ports: seq<int>, endpoints: seq<Endpoint>): seq<Str>
  {
    if endpoints == [] then [] else
      var last := endpoints[|endpoints| - 1];
      OfEndpoints(scheme, path, ports, endpoints[..|endpoints| - 1]) +
      (if last.ready == Some(true) then OnPorts(scheme, path, ports, last.addresses) else [])
  }

  /** The addresses of a slice in generation order, duplicates included. */
  function Derived(slice: EndpointSlice, scheme: Str, path: Str): seq<Str>
  {
    OfEndpoints(scheme, path, ActivePorts(slice.ports), slice.endpoints)
  }

  /** The nested loops over ready endpoints, ports and IPs. */
  method Derive(slice: EndpointSlice, scheme: Str, path: Str) returns (newTargetMap: set<Str>, newTargetList: seq<Str>)
    ensures newTargetList == Derived(slice, scheme, path)
    ensures newTargetMap == Members(newTargetList)
  {
    var activePorts := CollectPorts(slice.ports);
    newTargetMap, newTargetList := {}, [];
    for e := 0 to |slice.endpoints|
      invariant newTargetList == OfEndpoints(scheme, path, activePorts, slice.endpoints[..e])
      invariant newTargetMap == Members(newTargetList)
    {
      var ep := slice.endpoints[e];
      assert slice.endpoints[..e + 1][..e] == slice.endpoints[..e];
      if ep.ready == None || !ep.ready.value {
        continue;
      }
      var more := DeriveEndpoint(scheme, path, activePorts, ep.addresses);
      newTargetMap := newTargetMap + Members(more);
      newTargetList := newTargetList + more;
    }
    assert slice.endpoints[..|slice.endpoints|] == slice.endpoints;
  }

  method CollectPorts(ports: seq<Option<int>>) returns (activePorts: seq<int>)
    ensures activePorts == ActivePorts(ports)
  {
    if |ports| == 0 {
      return [DEFAULT_PORT];
    }
    activePorts := [];
    for i := 0 to |ports|
      invariant activePorts == SomePorts(ports[..i])
    {
      assert ports[..i + 1][..i] == ports[..i];
      if ports[i].Some? {
        activePorts := activePorts + [ports[i].value];
      }
    }
    assert ports[..|ports|] == ports;
  }

  method DeriveEndpoint(scheme: Str, path: Str, ports: seq<int>, ips: seq<Str>) returns (list: seq<Str>)
    ensures list == OnPorts(scheme, path, ports, ips)
  {
    list := [];
    for p := 0 to |ports|
      invariant list == OnPorts(scheme, path, ports[..p], ips)
    {
      var batch := DerivePort(scheme, path, ports[p], ips);
      list := list + batch;
      assert ports[..p + 1][..p] == ports[..p];
    }
    assert ports[..|ports|] == ports;
  }

  method DerivePort(scheme: Str, path: Str, port: int, ips: seq<Str>) returns (list: seq<Str>)
    ensures list == OnPort(scheme, path, port, ips)
  {
    list := [];
    ghost var all := OnPort(scheme, path, port, ips);
    for i := 0 to |ips|
      invariant list == all[..i]
    {
      list := list + [Address(scheme, ips[i], port, path)];
      assert all[..i + 1] == all[..i] + [all[i]];
    }
    assert all[..|ips|] == all;
  }

  /** The slice is probed on port `p`: it names the port, or it names none and `p` is the default. */
  predicate OnPortOf(slice: EndpointSlice, p: int)
  {
    Some(p) in slice.ports || (slice.ports == [] && p == DEFAULT_PORT)
  }

  lemma {:induction false} SomePortsHas(ports: seq<Option<int>>, p: int)
    ensures p in SomePorts(ports) <==> Some(p) in ports
  {
    if ports != [] {
      var n := |ports| - 1;
      SomePortsHas(ports[..n], p);
      assert ports == ports[..n] + [ports[n]];
    }
  }

  lemma ActivePortsHas(slice: EndpointSlice, p: int)
    ensures p in ActivePorts(slice.ports) <==> OnPortOf(slice, p)
  {
    SomePortsHas(slice.ports, p);
  }

  /** `a` is the rendering of an IP of a ready endpoint on a port of the slice. */
  predicate Renders(a: Str, slice: EndpointSlice, scheme: Str, path: Str, ep: Endpoint, ip: Str, p: int)
  {
    && ep in slice.endpoints && ep.ready == Some(true) && ip in ep.addresses
    && OnPortOf(slice, p) && a == Address(scheme, ip, p, path)
  }

  /** The derived list holds exactly the renderings of the IPs of ready endpoints on the ports of the slice. */
  lemma DerivedExactly(slice: EndpointSlice, scheme: Str, path: Str, a: Str)
    ensures a in Derived(slice, scheme, path) <==> exists ep, ip, p :: Renders(a, slice, scheme, path, ep, ip, p)
  {
    hide Address;
    var ports := ActivePorts(slice.ports);
    if a in Derived(slice, scheme, path) {
      var e := FromEndpoint(scheme, path, ports, slice.endpoints, a);
      var p, i := FromPort(scheme, path, ports, slice.endpoints[e].addresses, a);
      ActivePortsHas(slice, ports[p]);
      assert Renders(a, slice, scheme, path, slice.endpoints[e], slice.endpoints[e].addresses[i], ports[p]);
    }
    forall ep, ip, p | Renders(a, slice, scheme, path, ep, ip, p)
      ensures a in Derived(slice, scheme, path)
    {
      ActivePortsHas(slice, p);
      var e :| 0 <= e < |slice.endpoints| && slice.endpoints[e] == ep;
      var i :| 0 <= i < |ep.addresses| && ep.addresses[i] == ip;
      var j :| 0 <= j < |ports| && ports[j] == p;
      ToPort(scheme, path, ports, ep.addresses, j, i);
      ToEndpoint(scheme, path, ports, slice.endpoints, e, a);
    }
  }

  /** A slice without ports is probed on port 80. */
  lemma PortlessOn80(slice: EndpointSlice, scheme: Str, path: Str, a: Str)
    requires slice.ports == []
    ensures a in Derived(slice, scheme, path) <==> exists ep, ip ::
      ep in slice.endpoints && ep.ready == Some(true) && ip in ep.addresses && a == Address(scheme, ip, 80, path)
  {
    hide Address, Derived;
    DerivedExactly(slice, scheme, path, a);
    forall ep, ip | ep in slice.endpoints && ep.ready == Some(true) && ip in ep.addresses &&
      a == Address(scheme, ip, 80, path)
      ensures exists e, i, p :: Renders(a, slice, scheme, path, e, i, p)
    {
      assert Renders(a, slice, scheme, path, ep, ip, 80);
    }
  }

  /** The form of an address, in bytes: "h", "1", 42 and "/x" give "h://1:42/x"; a negative port shows its sign. */
  lemma AddressLayout()
    ensures Address([104], [49], 42, [47, 120]) == [104, 58, 47, 47, 49, 58, 52, 50, 47, 120]
    ensures PrintPort(-5) == [45, 53]
  {
    FortyTwo();
    hide Decimal.Digits;
  }

  lemma FortyTwo()
    ensures Decimal.Print(42) == [52, 50] && Decimal.Print(5) == [53]
  {
    assert Decimal.Digits(4) == [52];
  }

  lemma {:induction false} FromEndpoint(scheme: Str, path: Str, ports: seq<int>, endpoints: seq<Endpoint>, a: Str)
      returns (e: nat)
    requires a in OfEndpoints(scheme, path, ports, endpoints)
    ensures e < |endpoints| && endpoints[e].ready == Some(true) &&
      a in OnPorts(scheme, path, ports, endpoints[e].addresses)
  {
    hide OnPorts;
    e := |endpoints| - 1;
    if a in OfEndpoints(scheme, path, ports, endpoints[..e]) {
      e := FromEndpoint(scheme, path, ports, endpoints[..e], a);
    }
  }

  lemma {:induction false} FromPort(scheme: Str, path: Str, ports: seq<int>, ips: seq<Str>, a: Str)
      returns (p: nat, i: nat)
    requires a in OnPorts(scheme, path, ports, ips)
    ensures p < |ports| && i < |ips| && a == Address(scheme, ips[i], ports[p], path)
  {
    p := |ports| - 1;
    if a in OnPorts(scheme, path, ports[..p], ips) {
      p, i := FromPort(scheme, path, ports[..p], ips, a);
    } else {
      i :| i < |ips| && OnPort(scheme, path, ports[p], ips)[i] == a;
    }
  }

  lemma {:induction false} ToPort(scheme: Str, path: Str, ports: seq<int>, ips: seq<Str>, p: nat, i: nat)
    requires p < |ports| && i < |ips|
    ensures Address(scheme, ips[i], ports[p], path) in OnPorts(scheme, path, ports, ips)
  {
    var n := |ports| - 1;
    if p < n {
      ToPort(scheme, path, ports[..n], ips, p, i);
    } else {
      assert OnPort(scheme, path, ports[p], ips)[i] == Address(scheme, ips[i], ports[p], path);
    }
  }

  lemma {:induction false} ToEndpoint(scheme: Str, path: Str, ports: seq<int>, endpoints: seq<Endpoint>, e: nat, a: Str)
    requires e < |endpoints| && endpoints[e].ready == Some(true) &&
      a in OnPorts(scheme, path, ports, endpoints[e].addresses)
    ensures a in OfEndpoints(scheme, path, ports, endpoints)
  {
    hide OnPorts;
    var n := |endpoints| - 1;
    if e < n {
      ToEndpoint(scheme, path, ports, endpoints[..n], e, a);
    }
  }

  // ---------------------------------------------------------------- unambiguous rendering

  datatype Place = Place(scheme: Str, ip: Str, port: int, path: Str)

  /** Schemes hold no ':', IPs (of either family) no '/', and a path is empty or rooted. */
  predicate Renderable(q: Place)
  {
    COLON !in q.scheme && SLASH !in q.ip && 0 <= q.port && (q.path == [] || q.path[0] == SLASH)
  }

  function Render(q: Place): Str
  {
    Address(q.scheme, q.ip, q.port, q.path)
  }

  /** Reads an address back: the scheme ends at the first ':', the path starts at the first '/' after the "://",
      and the port follows the last ':' before the path. */
  function Decode(a: Str): Place
  {
    var i := FirstIndex(a, COLON);
    var rest := if i + 3 <= |a| then a[i + 3..] else [];
    var k := FirstIndex(rest, SLASH);
    var (ip, port) := DecodeAuthority(rest[..k]);
    Place(a[..i], ip, port, rest[k..])
  }

  function DecodeAuthority(authority: Str): (Str, int)
  {
    var j := LastIndex(authority, COLON);
    if j < 0 then ([], 0) else (authority[..j], Decimal.Parse(authority[j + 1..]))
  }

  /** The part of an address after "scheme://". */
  function Rest(q: Place): Str
    requires 0 <= q.port
  {
    q.ip + [COLON] + Decimal.Print(q.port) + q.path
  }

  /** Different renderable tuples get different target keys: the printer has an inverse. */
  lemma RenderRoundTrip(q: Place)
    requires Renderable(q)
    ensures Decode(Render(q)) == q
  {
    hide Render, DecodeAuthority, FirstIndex;
    var authority := q.ip + [COLON] + Decimal.Print(q.port);
    AddressParts(q);
    NoSlashInAuthority(q.ip, q.port);
    PathStart(authority, q.path);
    assert Rest(q)[..|authority|] == authority && Rest(q)[|authority|..] == q.path;
    AuthorityRoundTrip(q.ip, q.port);
  }

  lemma NoSlashInAuthority(ip: Str, port: nat)
    requires SLASH !in ip
    ensures SLASH !in ip + [COLON] + Decimal.Print(port)
  {
  }

  /** The first ':' of an address ends its scheme. */
  lemma AddressParts(q: Place)
    requires COLON !in q.scheme && 0 <= q.port
    ensures var a := Render(q);
      && FirstIndex(a, COLON) == |q.scheme| && |q.scheme| + 3 <= |a|
      && a[..|q.scheme|] == q.scheme && a[|q.scheme| + 3..] == Rest(q)
  {
    RenderShape(q);
    hide Render, Rest, FirstIndex;
    var tail := [SLASH, SLASH] + Rest(q);
    SplitFirst(q.scheme, COLON, tail);
    SchemeCut(q.scheme, Rest(q));
  }

  lemma SchemeCut(scheme: Str, rest: Str)
    ensures var a := scheme + [COLON] + ([SLASH, SLASH] + rest);
      a[..|scheme|] == scheme && a[|scheme| + 3..] == rest
  {
  }

  lemma RenderShape(q: Place)
    requires 0 <= q.port
    ensures Render(q) == q.scheme + [COLON] + ([SLASH, SLASH] + Rest(q))
  {
    assert Render(q) == q.scheme + [COLON, SLASH, SLASH] + Rest(q);
  }

  lemma AuthorityRoundTrip(ip: Str, port: nat)
    ensures DecodeAuthority(ip + [COLON] + Decimal.Print(port)) == (ip, port)
  {
    var text := Decimal.Print(port);
    var authority := ip + [COLON] + text;
    SplitLast(ip, COLON, text);
    assert authority[..|ip|] == ip && authority[|ip| + 1..] == text;
    Decimal.RoundTrip(port);
  }

  lemma PathStart(authority: Str, path: Str)
    requires SLASH !in authority && (path == [] || path[0] == SLASH)
    ensures FirstIndex(authority + path, SLASH) == |authority|
  {
    if path == [] {
      assert authority + path == authority;
      Absent(authority, SLASH);
    } else {
      assert path == [SLASH] + path[1..];
      assert authority + path == authority + [SLASH] + path[1..];
      SplitFirst(authority, SLASH, path[1..]);
    }
  }

  // ---------------------------------------------------------------- which paths make rendering ambiguous

  /** One more than the greatest port an EndpointSlice can name: ports are 32-bit integers. */
  const PORT_LIMIT: nat := 0x8000_0000

  /** Schemes and IPs are not empty, schemes hold no ':', IPs no '/'; the path may be any annotation text. */
  predicate Placeable(q: Place)
  {
    q.scheme != [] && COLON !in q.scheme && q.ip != [] && SLASH !in q.ip && 0 <= q.port < PORT_LIMIT
  }

  /** Two different places with these paths get the same address. */
  ghost predicate Clash(p: Str, p': Str)
  {
    exists q, q' :: Placeable(q) && Placeable(q') && q.path == p && q'.path == p' && q != q' && Render(q) == Render(q')
  }

  predicate AllDigits(x: Str)
  {
    forall i :: 0 <= i < |x| ==> Decimal.ZERO <= x[i] < Decimal.ZERO + 10
  }

  /** Text that can pass for the end of an authority: up to nine digits, which continue a port, or the rest of an IP
      with a port of its own. */
  ghost predicate PassesForAuthority(x: Str)
  {
    x != [] &&
    ((AllDigits(x) && |x| <= 9) ||
     exists y, n: nat :: SLASH !in y && n < PORT_LIMIT && x == y + [COLON] + Decimal.Print(n))
  }

  /** `p` is `p'` with such text in front. */
  ghost predicate Overruns(p: Str, p': Str)
  {
    |p'| <= |p| && p[|p| - |p'|..] == p' && PassesForAuthority(p[..|p| - |p'|])
  }

  function AppendDigits(port: nat, digits: Str): (more: nat)
    requires AllDigits(digits)
  {
    if digits == [] then port else
      10 * AppendDigits(port, digits[..|digits| - 1]) + (digits[|digits| - 1] - Decimal.ZERO)
  }

  lemma {:induction false} PrintAppended(port: nat, digits: Str)
    requires 0 < port && AllDigits(digits)
    ensures Decimal.Print(AppendDigits(port, digits)) == Decimal.Print(port) + digits && 0 < AppendDigits(port, digits)
  {
    if digits != [] {
      var front, last := digits[..|digits| - 1], digits[|digits| - 1];
      PrintAppended(port, front);
      assert Decimal.Print(AppendDigits(port, digits)) == Decimal.Print(AppendDigits(port, front)) + [last];
      assert digits == front + [last];
    } else {
      assert Decimal.Print(port) + digits == Decimal.Print(port);
    }
  }

  /** Up to nine digits after a one stay below the limit of ports. */
  lemma AppendedBelow(digits: Str)
    requires AllDigits(digits) && |digits| <= 9
    ensures AppendDigits(1, digits) < PORT_LIMIT
  {
    AppendedSize(digits);
    Decimal.Pow10Grows(|digits|, 9);
    assert Decimal.Pow10(4) == 10_000;
    assert Decimal.Pow10(9) == 1_000_000_000;
  }

  lemma {:induction false} AppendedSize(digits: Str)
    requires AllDigits(digits)
    ensures AppendDigits(1, digits) < 2 * Decimal.Pow10(|digits|)
  {
    if digits != [] {
      AppendedSize(digits[..|digits| - 1]);
    }
  }

  /** A path that starts with digits runs into the port, for every IP, positive port and rest of path. */
  lemma DigitPathCollides(scheme: Str, ip: Str, port: nat, digits: Str, rest: Str)
    requires 0 < port && AllDigits(digits)
    ensures Address(scheme, ip, port, digits + rest) == Address(scheme, ip, AppendDigits(port, digits), rest)
  {
    PrintAppended(port, digits);
    hide Decimal.Print;
    Regroup(scheme + [COLON, SLASH, SLASH] + ip + [COLON], Decimal.Print(port), digits, rest);
  }

  lemma Regroup(a: Str, b: Str, c: Str, d: Str)
    ensures a + b + (c + d) == a + (b + c) + d
  {
  }

  /** A path that goes on like an IPv6 address with a port turns the port before it into a part of the IP. */
  lemma ColonPathCollides(scheme: Str, ip: Str, port: nat, y: Str, n: nat, rest: Str)
    ensures Address(scheme, ip, port, y + [COLON] + Decimal.Print(n) + rest) ==
      Address(scheme, ip + [COLON] + Decimal.Print(port) + y, n, rest)
  {
    hide Decimal.Print;
    RegroupAll(scheme + [COLON, SLASH, SLASH], ip, [COLON], Decimal.Print(port), y, Decimal.Print(n), rest);
  }

  lemma RegroupAll(a: Str, b: Str, c: Str, d: Str, e: Str, f: Str, g: Str)
    ensures a + b + c + d + (e + c + f + g) == a + (b + c + d + e) + c + f + g
  {
  }

  lemma NoSlashInPort(ip: Str, port: nat, y: Str)
    requires SLASH !in ip && SLASH !in y
    ensures SLASH !in ip + [COLON] + Decimal.Print(port) + y
  {
  }

  lemma OverrunClashes(p: Str, p': Str)
    requires Overruns(p, p')
    ensures Clash(p, p')
  {
    var x := p[..|p| - |p'|];
    assert p == x + p';
    var scheme, ip := Ascii("http"), Ascii("::1");
    var q := Place(scheme, ip, 1, p);
    var q';
    if AllDigits(x) && |x| <= 9 {
      DigitPathCollides(scheme, ip, 1, x, p');
      AppendedBelow(x);
      q' := Place(scheme, ip, AppendDigits(1, x), p');
    } else {
      var y, n: nat :| SLASH !in y && n < PORT_LIMIT && x == y + [COLON] + Decimal.Print(n);
      ColonPathCollides(scheme, ip, 1, y, n, p');
      NoSlashInPort(ip, 1, y);
      q' := Place(scheme, ip + [COLON] + Decimal.Print(1) + y, n, p');
    }
    assert Placeable(q) && Placeable(q') && q != q' && Render(q) == Render(q');
  }

  /** Equal renderings have the same scheme, and the rest is equal from the IP on. */
  lemma SameScheme(q: Place, q': Place)
    requires Placeable(q) && Placeable(q') && Render(q) == Render(q')
    ensures q.scheme == q'.scheme && Rest(q) == Rest(q')
  {
    hide Render, Rest, FirstIndex;
    AddressParts(q);
    AddressParts(q');
  }

  /** A port has at most ten digits. */
  lemma TenDigits(port: nat)
    requires port < PORT_LIMIT
    ensures |Decimal.Print(port)| <= 10
  {
    Decimal.DigitCount(port, 10);
    assert Decimal.Pow10(5) == 100_000;
    assert Decimal.Pow10(10) == 10_000_000_000;
  }

  lemma NoColonInNumeral(n: nat)
    ensures COLON !in Decimal.Print(n) && AllDigits(Decimal.Print(n))
  {
  }

  /** The last ':' splits a text in one way. */
  lemma LastColonSplits(l: Str, r: Str, l': Str, r': Str)
    requires COLON !in r && COLON !in r' && l + [COLON] + r == l' + [COLON] + r'
    ensures l == l' && r == r'
  {
    hide LastIndex;
    var all := l + [COLON] + r;
    SplitLast(l, COLON, r);
    SplitLast(l', COLON, r');
    assert all[..|l|] == l && all[|l| + 1..] == r;
    assert (l' + [COLON] + r')[..|l'|] == l' && (l' + [COLON] + r')[|l'| + 1..] == r';
  }

  /** An authority determines IP and port. */
  lemma SameAuthority(ip: Str, port: nat, ip': Str, port': nat)
    requires ip + [COLON] + Decimal.Print(port) == ip' + [COLON] + Decimal.Print(port')
    ensures ip == ip' && port == port'
  {
    AuthorityRoundTrip(ip, port);
    AuthorityRoundTrip(ip', port');
  }

  /** An authority followed by more text is an authority again only if that text passes for the end of one. */
  lemma LongerAuthority(ip: Str, port: nat, x: Str, ip': Str, port': nat)
    requires ip + [COLON] + Decimal.Print(port) + x == ip' + [COLON] + Decimal.Print(port')
    requires SLASH !in ip' && x != [] && port' < PORT_LIMIT
    ensures PassesForAuthority(x)
  {
    NoColonInNumeral(port);
    NoColonInNumeral(port');
    TenDigits(port');
    hide Decimal.Print;
    var text, text' := Decimal.Print(port), Decimal.Print(port');
    if COLON in x {
      var k := LastColon(x);
      var y, z := x[..k], x[k + 1..];
      assert x == y + [COLON] + z;
      assert ip + [COLON] + text + x == (ip + [COLON] + text + y) + [COLON] + z;
      LastColonSplits(ip + [COLON] + text + y, z, ip', text');
      assert forall i :: 0 <= i < |y| ==> y[i] == ip'[|ip| + 1 + |text| + i];
    } else {
      assert ip + [COLON] + text + x == ip + [COLON] + (text + x);
      LastColonSplits(ip, text + x, ip', text');
      assert forall i :: 0 <= i < |x| ==> x[i] == text'[|text| + i];
    }
  }

  lemma {:induction false} LastColon(x: Str) returns (k: nat)
    requires COLON in x
    ensures k < |x| && x[k] == COLON && COLON !in x[k + 1..]
  {
    k := |x| - 1;
    if x[k] != COLON {
      var n := k;
      k := LastColon(x[..n]);
      assert x[k + 1..] == x[..n][k + 1..] + [x[n]];
    }
  }

  /** Of two splits of a text, the one with the longer second part has the end of the other's first part in it. */
  lemma LongerTail(l: Str, r: Str, l': Str, r': Str)
    requires l + r == l' + r' && |r'| <= |r|
    ensures var k := |r| - |r'|; r[k..] == r' && l + r[..k] == l'
  {
    var k := |r| - |r'|;
    assert (l + r)[|l'|..] == r[k..] && (l' + r')[|l'|..] == r';
    assert (l + r)[..|l'|] == l + r[..k] && (l' + r')[..|l'|] == l';
  }

  lemma ClashOverruns(q: Place, q': Place)
    requires Placeable(q) && Placeable(q') && q != q' && Render(q) == Render(q') && |q'.path| <= |q.path|
    ensures Overruns(q.path, q'.path)
  {
    SameScheme(q, q');
    hide Render, Decimal.Print, PassesForAuthority;
    var auth, auth' := q.ip + [COLON] + Decimal.Print(q.port), q'.ip + [COLON] + Decimal.Print(q'.port);
    LongerTail(auth, q.path, auth', q'.path);
    var x := q.path[..|q.path| - |q'.path|];
    if x == [] {
      assert auth + x == auth;
      SameAuthority(q.ip, q.port, q'.ip, q'.port);
      assert false;
    } else {
      LongerAuthority(q.ip, q.port, x, q'.ip, q'.port);
    }
  }

  /** Two paths, arbitrary texts, can give two different places the same target key exactly when one of them is the
      other with text in front that passes for the end of an authority. */
  lemma ClashIff(p: Str, p': Str)
    ensures Clash(p, p') <==> Overruns(p, p') || Overruns(p', p)
  {
    if Clash(p, p') {
      var q, q' :| Placeable(q) && Placeable(q') && q.path == p && q'.path == p' && q != q' && Render(q) == Render(q');
      if |p'| <= |p| {
        ClashOverruns(q, q');
      } else {
        ClashOverruns(q', q);
      }
    }
    if Overruns(p, p') {
      OverrunClashes(p, p');
    }
    if Overruns(p', p) {
      OverrunClashes(p', p);
      var q', q :| Placeable(q') && Placeable(q) && q'.path == p' && q.path == p && q' != q && Render(q') == Render(q);
      assert Clash(p, p');
    }
  }

  /** Rooted and empty paths never clash. */
  lemma RootedPathsAreSafe(p: Str, p': Str)
    requires (p == [] || p[0] == SLASH) && (p' == [] || p'[0] == SLASH)
    ensures !Clash(p, p')
  {
    hide Clash, Overruns, PassesForAuthority;
    ClashIff(p, p');
    NeverOverruns(p, p');
    NeverOverruns(p', p);
  }

  lemma NeverOverruns(p: Str, p': Str)
    requires p == [] || p[0] == SLASH
    ensures !Overruns(p, p')
  {
    hide PassesForAuthority;
    if |p'| <= |p| {
      NotAuthority(p, |p| - |p'|);
    }
  }

  lemma NotAuthority(p: Str, k: nat)
    requires k <= |p| && (p == [] || p[0] == SLASH)
    ensures !PassesForAuthority(p[..k])
  {
    hide Decimal.Print;
    if k > 0 {
      var x := p[..k];
      assert x[0] == SLASH;
      forall y, n: nat | x == y + [COLON] + Decimal.Print(n)
        ensures SLASH in y
      {
        assert x[0] == if y == [] then COLON else y[0];
      }
    }
  }
}
