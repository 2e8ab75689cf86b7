/** The pinned host keys: an in-memory map from normalised host names to keys, and the append-only
    file it is rebuilt from. */
module KnownHosts {
  import opened Bytes

  type Key = Text

  // ----- host names

  const COLON: Byte := 0x3a
  const OPEN: Byte := 0x5b
  const CLOSE: Byte := 0x5d
  const BLANKS: set<Byte> := {0x09, 0x0a, 0x0b, 0x0c, 0x0d, 0x20}
  const PORT_22: Text := [0x32, 0x32]

  lemma DefaultPort()
    ensures PORT_22 == Ascii("22")
  {
  }

  function LowerByte(b: Byte): (r: Byte)
  {
    if 0x41 <= b <= 0x5a then b + 0x20 else b
  }

  function Lower(s: Text): (r: Text)
    ensures |r| == |s|
  {
    seq(|s|, i requires 0 <= i < |s| => LowerByte(s[i]))
  }

  /** First and last position of a byte, -1 when there is none. */
  function First(s: Text, b: Byte): (i: int)
    ensures -1 <= i < |s|
  {
    if s == [] then -1
    else if s[0] == b then 0
    else if First(s[1..], b) < 0 then -1 else 1 + First(s[1..], b)
  }

  function Last(s: Text, b: Byte): (i: int)
    ensures -1 <= i < |s|
  {
    if s == [] then -1 else if s[|s| - 1] == b then |s| - 1 else Last(s[..|s| - 1], b)
  }

  datatype HostPort = HostPort(host: Text, port: Text)

  /** net.SplitHostPort; None stands for its errors. */
  function SplitHostPort(s: Text): (r: Option<HostPort>)
  {
    var i := Last(s, COLON);
    if i < 0 then None
    else if s[0] == OPEN then
      var end := First(s, CLOSE);
      if end < 0 || end + 1 != i || OPEN in s[1..] || CLOSE in s[end + 1..] then None
      else if end < 1 then None
      else Some(HostPort(s[1..end], s[i + 1..]))
    else if COLON in s[..i] || OPEN in s || CLOSE in s then None
    else Some(HostPort(s[..i], s[i + 1..]))
  }

  /** A host and a port are told apart exactly in "host:port" without a colon in the host and without
      brackets, and in "[host]:port" without brackets in either; the port holds no colon. */
  lemma SplitHostPortExactly(s: Text, h: Text, p: Text)
    ensures SplitHostPort(s) == Some(HostPort(h, p))
            <==> COLON !in p && OPEN !in h + p && CLOSE !in h + p
                 && ((s == h + Ascii(":") + p && COLON !in h) || s == Ascii("[") + h + Ascii("]:") + p)
  {
    assert Ascii(":") == [COLON] && Ascii("[") == [OPEN] && Ascii("]:") == [CLOSE, COLON];
    if SplitHostPort(s) == Some(HostPort(h, p)) { SplitParts(s, h, p); }
    NotInEither(OPEN, h, p);
    NotInEither(CLOSE, h, p);
    hide SplitHostPort;
    if COLON !in p && OPEN !in h + p && CLOSE !in h + p {
      if s == h + [COLON] + p && COLON !in h { PlainParts(h, p); }
      if s == [OPEN] + h + [CLOSE, COLON] + p { BracketedParts(h, p); }
    }
  }

  lemma {:induction false} LastMeaning(s: Text, b: Byte)
    ensures Last(s, b) < 0 ==> b !in s
    ensures Last(s, b) >= 0 ==> s[Last(s, b)] == b && b !in s[Last(s, b) + 1..]
  {
    if s != [] && s[|s| - 1] != b { LastMeaning(s[..|s| - 1], b); }
  }

  lemma {:induction false} FirstMeaning(s: Text, b: Byte)
    ensures First(s, b) < 0 ==> b !in s
    ensures First(s, b) >= 0 ==> s[First(s, b)] == b && b !in s[..First(s, b)]
  {
    if s != [] && s[0] != b { FirstMeaning(s[1..], b); }
  }

  lemma SplitParts(s: Text, h: Text, p: Text)
    requires SplitHostPort(s) == Some(HostPort(h, p))
    ensures COLON !in p && OPEN !in h + p && CLOSE !in h + p
    ensures (s == h + [COLON] + p && COLON !in h) || s == [OPEN] + h + [CLOSE, COLON] + p
  {
    var i, end := Last(s, COLON), First(s, CLOSE);
    LastMeaning(s, COLON);
    FirstMeaning(s, CLOSE);
    hide Last, First;
    if s[0] == OPEN {
      PiecesOfBracketed(s, end);
    } else {
      assert s == s[..i] + [COLON] + s[i + 1..];
    }
  }

  lemma PiecesOfBracketed(s: Text, end: nat)
    requires 0 < end < |s| - 1 && s[0] == OPEN && s[end] == CLOSE && s[end + 1] == COLON
    requires OPEN !in s[1..] && CLOSE !in s[..end] && CLOSE !in s[end + 1..]
    ensures var h, p := s[1..end], s[end + 2..];
            s == [OPEN] + h + [CLOSE, COLON] + p && OPEN !in h + p && CLOSE !in h + p
  {
    var h, p := s[1..end], s[end + 2..];
    assert s[1..] == h + ([CLOSE, COLON] + p) && s[..end] == [OPEN] + h && s[end + 1..] == [COLON] + p;
    NotInEither(OPEN, h, [CLOSE, COLON] + p);
    NotInEither(OPEN, [CLOSE, COLON], p);
    NotInEither(CLOSE, [OPEN], h);
    NotInEither(CLOSE, [COLON], p);
    NotInEither(OPEN, h, p);
    NotInEither(CLOSE, h, p);
  }

  lemma PlainParts(h: Text, p: Text)
    requires COLON !in h && COLON !in p && OPEN !in h && OPEN !in p && CLOSE !in h && CLOSE !in p
    ensures SplitHostPort(h + [COLON] + p) == Some(HostPort(h, p))
  {
    var s := h + [COLON] + p;
    assert s[..|h|] == h && s[|h| + 1..] == p;
    assert forall k :: |h| < k < |s| ==> s[k] == p[k - |h| - 1];
    LastIs(s, COLON, |h|);
    hide Last, First;
    NotInEither(OPEN, h, [COLON] + p);
    NotInEither(CLOSE, h, [COLON] + p);
    assert s == h + ([COLON] + p);
  }

  lemma BracketedParts(h: Text, p: Text)
    requires COLON !in p && OPEN !in h && OPEN !in p && CLOSE !in h && CLOSE !in p
    ensures SplitHostPort([OPEN] + h + [CLOSE, COLON] + p) == Some(HostPort(h, p))
  {
    var s := [OPEN] + h + [CLOSE, COLON] + p;
    var end := |h| + 1;
    BracketsAt(s, h, p);
    hide First, Last;
    assert s[1..end] == h && s[end + 2..] == p;
    assert s[1..] == h + ([CLOSE, COLON] + p);
    NotInEither(OPEN, h, [CLOSE, COLON] + p);
    assert s[end + 1..] == [COLON] + p;
    NotInEither(CLOSE, [COLON], p);
  }

  lemma NotInEither(c: Byte, a: Text, b: Text)
    ensures c !in a + b <==> c !in a && c !in b
  {
  }

  lemma BracketsAt(s: Text, h: Text, p: Text)
    requires CLOSE !in h && COLON !in p && s == [OPEN] + h + [CLOSE, COLON] + p
    ensures First(s, CLOSE) == |h| + 1 && Last(s, COLON) == |h| + 2
  {
    var end := |h| + 1;
    assert forall k :: 1 <= k < end ==> s[k] == h[k - 1];
    assert forall k :: end + 1 < k < |s| ==> s[k] == p[k - end - 2];
    hide First, Last;
    FirstIs(s, CLOSE, end);
    LastIs(s, COLON, end + 1);
  }

  /** strings.TrimPrefix "[" and TrimSuffix "]" */
  function TrimBrackets(s: Text): (r: Text)
  {
    var t := if s != [] && s[0] == OPEN then s[1..] else s;
    if t != [] && t[|t| - 1] == CLOSE then t[..|t| - 1] else t
  }

  function Normalize(hostname: Text): (r: Text)
  {
    var host := Trim(hostname, BLANKS);
    match SplitHostPort(host)
    case None => Lower(TrimBrackets(host))
    case Some(hp) =>
      var h := Lower(TrimBrackets(hp.host));
      if hp.port == PORT_22 then h else h + [COLON] + hp.port
  }

  /** A name or address part: no colon, bracket or blank, and not empty. */
  predicate Word(s: Text)
  {
    s != [] && forall k :: 0 <= k < |s| ==> s[k] !in BLANKS && s[k] != COLON && s[k] != OPEN && s[k] != CLOSE
  }

  /** An IPv6 address: at least two colons, no bracket or blank. */
  predicate Address6(s: Text)
  {
    s != [] && (forall k :: 0 <= k < |s| ==> s[k] !in BLANKS && s[k] != OPEN && s[k] != CLOSE)
    && exists i, j :: 0 <= i < j < |s| && s[i] == COLON && s[j] == COLON
  }

  lemma {:induction false} FirstIs(s: Text, b: Byte, i: nat)
    requires i < |s| && s[i] == b && forall k :: 0 <= k < i ==> s[k] != b
    ensures First(s, b) == i
  {
    if i > 0 { FirstIs(s[1..], b, i - 1); }
  }

  lemma {:induction false} LastIs(s: Text, b: Byte, i: nat)
    requires i < |s| && s[i] == b && forall k :: i < k < |s| ==> s[k] != b
    ensures Last(s, b) == i
  {
    if i < |s| - 1 { LastIs(s[..|s| - 1], b, i); }
  }

  lemma {:induction false} LastNone(s: Text, b: Byte)
    requires forall k :: 0 <= k < |s| ==> s[k] != b
    ensures Last(s, b) == -1
  {
    if s != [] { LastNone(s[..|s| - 1], b); }
  }

  lemma {:induction false} LastAtLeast(s: Text, b: Byte, i: nat)
    requires i < |s| && s[i] == b
    ensures Last(s, b) >= i && s[Last(s, b)] == b
  {
    if s[|s| - 1] != b { LastAtLeast(s[..|s| - 1], b, i); }
  }

  lemma NoBlanks(s: Text)
    requires s == [] || (s[0] !in BLANKS && s[|s| - 1] !in BLANKS)
    ensures Trim(s, BLANKS) == s
  {
    TrimMeaning(s, BLANKS);
  }

  /** A host name means the same with and without the default port; another port is kept. */
  lemma NameForms(name: Text, port: Text)
    requires Word(name) && Word(port)
    ensures Normalize(name) == Lower(name)
    ensures Normalize(name + [COLON] + port) == if port == Ascii("22") then Lower(name) else Lower(name) + [COLON] + port
  {
    DefaultPort();
    NoBlanks(name);
    LastNone(name, COLON);
    NameWithPort(name, port);
    NoBlanks(name + [COLON] + port);
  }

  lemma NameWithPort(name: Text, port: Text)
    requires Word(name) && Word(port)
    ensures SplitHostPort(name + [COLON] + port) == Some(HostPort(name, port))
  {
    var s := name + [COLON] + port;
    assert s[..|name|] == name && s[|name| + 1..] == port;
    assert forall k :: |name| < k < |s| ==> s[k] == port[k - |name| - 1];
    LastIs(s, COLON, |name|);
  }

  /** An IPv6 address means the same bare, in brackets, and in brackets with the default port. */
  lemma AddressForms(address: Text, port: Text)
    requires Address6(address) && Word(port)
    ensures Normalize(address) == Lower(address)
    ensures Normalize([OPEN] + address + [CLOSE]) == Lower(address)
    ensures Normalize([OPEN] + address + [CLOSE, COLON] + port)
            == if port == PORT_22 then Lower(address) else Lower(address) + [COLON] + port
  {
    BareAddress(address);
    BracketedAddress(address);
    hide SplitHostPort, First, Last, Trim, Lower, TrimBrackets;
    PortedAddress(address, port);
  }

  lemma PortedAddress(address: Text, port: Text)
    requires Address6(address) && Word(port)
    ensures Normalize([OPEN] + address + [CLOSE, COLON] + port)
            == if port == PORT_22 then Lower(address) else Lower(address) + [COLON] + port
  {
    var s := [OPEN] + address + [CLOSE, COLON] + port;
    hide SplitHostPort, First, Last, Trim, Lower;
    AddressWithPort(address, port);
    assert s[0] == OPEN && s[|s| - 1] == port[|port| - 1];
    NoBlanks(s);
    NoBrackets(address);
  }

  lemma NoBrackets(address: Text)
    requires Address6(address)
    ensures TrimBrackets(address) == address
  {
  }

  lemma BareAddress(address: Text)
    requires Address6(address)
    ensures Normalize(address) == Lower(address)
  {
    NoBlanks(address);
    var i, j :| 0 <= i < j < |address| && address[i] == COLON && address[j] == COLON;
    LastAtLeast(address, COLON, j);
    assert address[..Last(address, COLON)][i] == COLON;
  }

  lemma BracketedAddress(address: Text)
    requires Address6(address)
    ensures Normalize([OPEN] + address + [CLOSE]) == Lower(address)
  {
    var s := [OPEN] + address + [CLOSE];
    NoBlanks(s);
    assert forall k :: 1 <= k < |s| - 1 ==> s[k] == address[k - 1];
    FirstIs(s, CLOSE, |s| - 1);
    assert TrimBrackets(s) == address by { assert s[1..] == address + [CLOSE]; }
  }

  lemma AddressWithPort(address: Text, port: Text)
    requires Address6(address) && Word(port)
    ensures SplitHostPort([OPEN] + address + [CLOSE, COLON] + port) == Some(HostPort(address, port))
  {
    BracketedParts(address, port);
  }

  // ----- which endpoints share a normal form

  predicate Host(s: Text) { Word(s) || Address6(s) }

  /** How an endpoint is written: an address goes in brackets. */
  function Endpoint(host: Text, port: Text): (s: Text)
  {
    if COLON in host then [OPEN] + host + [CLOSE, COLON] + port else host + [COLON] + port
  }

  function NormalForm(host: Text, port: Text): (s: Text)
  {
    if port == PORT_22 then Lower(host) else Lower(host) + [COLON] + port
  }

  lemma EndpointForm(host: Text, port: Text)
    requires Host(host) && Word(port)
    ensures Normalize(Endpoint(host, port)) == NormalForm(host, port)
  {
    hide Normalize, Lower;
    DefaultPort();
    if COLON in host { AddressForms(host, port); } else { NameForms(host, port); }
  }

  lemma SplitAtColon(a: Text, p: Text, b: Text, q: Text)
    requires a + [COLON] + p == b + [COLON] + q && COLON !in p && COLON !in q
    ensures a == b && p == q
  {
    LastColon(a, p);
    LastColon(b, q);
    var s := a + [COLON] + p;
    assert s[..|a|] == a && (b + [COLON] + q)[..|b|] == b;
    assert s[|a| + 1..] == p && (b + [COLON] + q)[|b| + 1..] == q;
  }

  lemma {:induction false} LastColon(a: Text, p: Text)
    requires COLON !in p
    ensures Last(a + [COLON] + p, COLON) == |a|
    decreases |p|
  {
    var s := a + [COLON] + p;
    if p == [] {
      assert s[|s| - 1] == COLON;
    } else {
      var q := p[..|p| - 1];
      assert s[..|s| - 1] == a + [COLON] + q && s[|s| - 1] == p[|p| - 1];
      LastColon(a, q);
    }
  }

  /** Two endpoints share a pin if and only if host and port are the same up to case, or one has the
      default port and its host reads like the other's host and port. */
  lemma AlikeExactly(h1: Text, p1: Text, h2: Text, p2: Text)
    requires Host(h1) && Word(p1) && Host(h2) && Word(p2)
    ensures Normalize(Endpoint(h1, p1)) == Normalize(Endpoint(h2, p2))
            <==> (Lower(h1) == Lower(h2) && p1 == p2)
                 || (p1 == PORT_22 != p2 && Lower(h1) == Lower(h2) + [COLON] + p2)
                 || (p2 == PORT_22 != p1 && Lower(h2) == Lower(h1) + [COLON] + p1)
  {
    EndpointForm(h1, p1);
    EndpointForm(h2, p2);
    hide Normalize, Endpoint, Lower, Address6;
    if p1 != PORT_22 && p2 != PORT_22 && NormalForm(h1, p1) == NormalForm(h2, p2) {
      SplitAtColon(Lower(h1), p1, Lower(h2), p2);
    }
  }

  /** The two texts differ at most in the case of their letters. */
  predicate SameUpToCase(a: Text, b: Text)
  {
    |a| == |b|
    && forall i :: 0 <= i < |a| ==>
         a[i] == b[i] || (0x41 <= a[i] <= 0x5a && b[i] == a[i] + 0x20) || (0x41 <= b[i] <= 0x5a && a[i] == b[i] + 0x20)
  }

  lemma LowerSame(a: Text, b: Text)
    ensures Lower(a) == Lower(b) <==> SameUpToCase(a, b)
  {
    assert |Lower(a)| == |a| && |Lower(b)| == |b|;
    if Lower(a) == Lower(b) {
      forall i | 0 <= i < |a| ensures LowerByte(a[i]) == LowerByte(b[i]) { assert Lower(a)[i] == Lower(b)[i]; }
    }
    if SameUpToCase(a, b) {
      assert forall i :: 0 <= i < |a| ==> Lower(a)[i] == Lower(b)[i];
    }
  }

  /** Host names never get in each other's way. */
  lemma NamesAlikeExactly(h1: Text, p1: Text, h2: Text, p2: Text)
    requires Word(h1) && Word(p1) && Word(h2) && Word(p2)
    ensures Normalize(Endpoint(h1, p1)) == Normalize(Endpoint(h2, p2)) <==> SameUpToCase(h1, h2) && p1 == p2
  {
    AlikeExactly(h1, p1, h2, p2);
    LowerSame(h1, h2);
    NoColon(h1);
    NoColon(h2);
    hide Normalize, Endpoint, Address6, SameUpToCase, Lower;
    NotWithColon(Lower(h1), Lower(h2), p2);
    NotWithColon(Lower(h2), Lower(h1), p1);
  }

  lemma NotWithColon(a: Text, b: Text, p: Text)
    requires COLON !in a
    ensures a != b + [COLON] + p
  {
    assert (b + [COLON] + p)[|b|] == COLON;
  }

  lemma NoColon(name: Text)
    requires Word(name)
    ensures COLON !in Lower(name)
  {
    assert forall k :: 0 <= k < |name| ==> Lower(name)[k] != COLON;
  }

  /** Blanks around a host are ignored. */
  lemma BlanksIgnored(front: Text, hostname: Text, back: Text)
    requires AllIn(front, {0x09, 0x0a, 0x0b, 0x0c, 0x0d, 0x20}) && AllIn(back, {0x09, 0x0a, 0x0b, 0x0c, 0x0d, 0x20})
    requires hostname != [] && Trimmed(hostname, {0x09, 0x0a, 0x0b, 0x0c, 0x0d, 0x20})
    ensures Normalize(front + hostname + back) == Normalize(hostname)
  {
    TrimAround(front, hostname, back, BLANKS);
    TrimMeaning(hostname, BLANKS);
    hide Trim, SplitHostPort, Lower, TrimBrackets;
  }

  /** "::1", "2222" */
  const LOOPBACK: Text := [0x3a, 0x3a, 0x31]
  const PORT_2222: Text := [0x32, 0x32, 0x32, 0x32]

  /** Port 2222 of the address ::1 shares a pin with the default port of the address ::1:2222. */
  lemma AddressesCollide()
    ensures Normalize(Endpoint(LOOPBACK, PORT_2222)) == Normalize(Endpoint(LOOPBACK + [COLON] + PORT_2222, PORT_22))
  {
    var other := LOOPBACK + [COLON] + PORT_2222;
    assert LOOPBACK[0] == COLON && LOOPBACK[1] == COLON && other[0] == COLON && other[1] == COLON;
    assert Lower(other) == Lower(LOOPBACK) + [COLON] + PORT_2222;
    hide Normalize, Endpoint, Lower;
    AlikeExactly(LOOPBACK, PORT_2222, other, PORT_22);
  }

  // ----- the file and the map

  datatype Pin = Pin(host: Text, key: Key)

  datatype FileEntry = FileEntry(hosts: seq<Text>, key: Key)

  /** The known-hosts library: the line it prints for a host and key, and what it reads from a line.
      A line that is not a key of `parsed` does not parse. */
  datatype HostLib = HostLib(printed: imap<Pin, Text>, parsed: imap<Text, FileEntry>)

  function Line(lib: HostLib, host: Text, key: Key): (line: Text)
  {
    if Pin(host, key) in lib.printed then lib.printed[Pin(host, key)] else []
  }

  /** A line scanner fed byte by byte: the finished lines and the bytes of the current one. */
  datatype Scanner = Scanner(lines: seq<Text>, current: Text)

  function Scanned(content: Text): (s: Scanner)
  {
    if |content| == 0 then Scanner([], [])
    else
      var before := Scanned(content[..|content| - 1]);
      var b := content[|content| - 1];
      if b == NL then Scanner(before.lines + [DropCR(before.current)], [])
      else Scanner(before.lines, before.current + [b])
  }

  /** The lines a scanner yields: without the newline and one carriage return before it, and
      without an empty last line. */
  function ScanLines(content: Text): (lines: seq<Text>)
  {
    var s := Scanned(content);
    if s.current == [] then s.lines else s.lines + [DropCR(s.current)]
  }

  function DropCR(s: Text): (r: Text)
  {
    if s != [] && s[|s| - 1] == CR then s[..|s| - 1] else s
  }

  function PinAll(hosts: map<Text, Key>, names: seq<Text>, n: nat, key: Key): (r: map<Text, Key>)
    requires n <= |names|
  {
    if n == 0 then hosts else PinAll(hosts, names, n - 1, key)[Normalize(names[n - 1]) := key]
  }

  /** The map after the first n lines; None when a line does not parse. */
  function LoadLines(lib: HostLib, lines: seq<Text>, n: nat): (r: Option<map<Text, Key>>)
    requires n <= |lines|
  {
    if n == 0 then Some(map[])
    else
      var before := LoadLines(lib, lines, n - 1);
      if before.None? || lines[n - 1] !in lib.parsed then None
      else
        var entry := lib.parsed[lines[n - 1]];
        Some(PinAll(before.value, entry.hosts, |entry.hosts|, entry.key))
  }

  function Load(lib: HostLib, content: Text): (r: Option<map<Text, Key>>)
  {
    LoadLines(lib, ScanLines(content), |ScanLines(content)|)
  }

  /** The line names the host, perhaps among others. */
  predicate NamesHost(lib: HostLib, line: Text, host: Text)
  {
    line in lib.parsed && exists k :: 0 <= k < |lib.parsed[line].hosts| && Normalize(lib.parsed[line].hosts[k]) == host
  }

  lemma {:induction false} PinAllMeaning(hosts: map<Text, Key>, names: seq<Text>, n: nat, key: Key, host: Text)
    requires n <= |names|
    ensures var r := PinAll(hosts, names, n, key);
            if exists k :: 0 <= k < n && Normalize(names[k]) == host then host in r && r[host] == key
            else (host in r <==> host in hosts) && (host in hosts ==> r[host] == hosts[host])
  {
    hide Normalize;
    if n > 0 { PinAllMeaning(hosts, names, n - 1, key, host); }
  }

  /** The first n lines load when all of them parse. A host is then pinned when one of them names it,
      to the key of the last that does. */
  lemma {:induction false} LoadMeaning(lib: HostLib, lines: seq<Text>, n: nat, host: Text)
    requires n <= |lines|
    ensures LoadLines(lib, lines, n).Some? <==> forall l :: 0 <= l < n ==> lines[l] in lib.parsed
    ensures LoadLines(lib, lines, n).Some? ==>
              var hosts := LoadLines(lib, lines, n).value;
              (host in hosts <==> exists l :: 0 <= l < n && NamesHost(lib, lines[l], host))
              && forall l :: 0 <= l < n && NamesHost(lib, lines[l], host)
                             && (forall m :: l < m < n ==> !NamesHost(lib, lines[m], host)) ==>
                   host in hosts && hosts[host] == lib.parsed[lines[l]].key
  {
    hide Normalize, PinAll, NamesHost;
    if n > 0 {
      LoadMeaning(lib, lines, n - 1, host);
      if LoadLines(lib, lines, n).Some? { LineLoaded(lib, lines, n, host); }
    }
  }

  lemma LineLoaded(lib: HostLib, lines: seq<Text>, n: nat, host: Text)
    requires 0 < n <= |lines| && LoadLines(lib, lines, n).Some?
    ensures lines[n - 1] in lib.parsed && LoadLines(lib, lines, n - 1).Some?
    ensures var before, after := LoadLines(lib, lines, n - 1).value, LoadLines(lib, lines, n).value;
            if NamesHost(lib, lines[n - 1], host) then host in after && after[host] == lib.parsed[lines[n - 1]].key
            else (host in after <==> host in before) && (host in before ==> after[host] == before[host])
  {
    hide Normalize, PinAll;
    var entry := lib.parsed[lines[n - 1]];
    PinAllMeaning(LoadLines(lib, lines, n - 1).value, entry.hosts, |entry.hosts|, entry.key, host);
  }

  lemma {:induction false} LoadStops(lib: HostLib, lines: seq<Text>, k: nat, n: nat)
    requires k <= n <= |lines| && LoadLines(lib, lines, k).None?
    ensures LoadLines(lib, lines, n).None?
  {
    if k < n { LoadStops(lib, lines, k, n - 1); }
  }

  // ----- the verifier

  datatype Store = Store(content: Text, hosts: map<Text, Key>)

  /** One callback; `written` is None for a write that succeeds, or the bytes a failing one left. */
  datatype Call = Call(hostname: Text, key: Key, written: Option<nat>)

  predicate Possible(lib: HostLib, call: Call)
  {
    call.written.Some? ==> call.written.value <= |Line(lib, Normalize(call.hostname), call.key)| + 1
  }

  /** The store after one callback in secure mode. */
  function After(lib: HostLib, s: Store, call: Call): (r: Store)
    requires Possible(lib, call)
  {
    var host := Normalize(call.hostname);
    var line := Line(lib, host, call.key) + [NL];
    if host in s.hosts then s
    else if call.written.Some? then Store(s.content + line[..call.written.value], s.hosts)
    else Store(s.content + line, s.hosts[host := call.key])
  }

  predicate Accepts(s: Store, call: Call)
  {
    var host := Normalize(call.hostname);
    if host in s.hosts then s.hosts[host] == call.key else call.written.None?
  }

  /** `content` is the file, which only grows. */
  class Verifier {
    const insecure: bool
    var content: Text
    var knownHosts: map<Text, Key>

    constructor (insecure: bool, content: Text, hosts: map<Text, Key>)
      ensures this.insecure == insecure && this.content == content && knownHosts == hosts
    {
      this.insecure := insecure;
      this.content := content;
      knownHosts := hosts;
    }

    method RemoteHostKeyCallback(lib: HostLib, hostname: Text, key: Key, written: Option<nat>) returns (ok: bool)
      requires Possible(lib, Call(hostname, key, written))
      modifies this
      ensures var s, call := Store(old(content), old(knownHosts)), Call(hostname, key, written);
              if insecure then ok && content == s.content && knownHosts == s.hosts
              else ok == Accepts(s, call) && Store(content, knownHosts) == After(lib, s, call)
    {
      if insecure {
        return true;
      }
      var host := Normalize(hostname);
      if host in knownHosts {
        return knownHosts[host] == key;
      }
      var line := Line(lib, host, key) + [NL];
      if written.Some? {
        content := content + line[..written.value];
        return false;
      }
      content := content + line;
      knownHosts := knownHosts[host := key];
      return true;
    }
  }

  /** Opening the file: a line that does not parse makes it fail. */
  method NewVerifier(lib: HostLib, content: Text, insecure: bool) returns (v: Verifier?)
    ensures v == null <==> Load(lib, content).None?
    ensures v != null ==> fresh(v) && v.insecure == insecure && v.content == content && v.knownHosts == Load(lib, content).value
  {
    hide Normalize, ScanLines;
    var lines := ScanLines(content);
    var hosts: map<Text, Key> := map[];
    for n := 0 to |lines|
      invariant LoadLines(lib, lines, n) == Some(hosts)
    {
      if lines[n] !in lib.parsed {
        LoadStops(lib, lines, n + 1, |lines|);
        return null;
      }
      var entry := lib.parsed[lines[n]];
      ghost var before := hosts;
      for k := 0 to |entry.hosts|
        invariant hosts == PinAll(before, entry.hosts, k, entry.key)
      {
        hosts := hosts[Normalize(entry.hosts[k]) := entry.key];
      }
    }
    v := new Verifier(insecure, content, hosts);
  }

  // ----- runs

  function Run(lib: HostLib, s: Store, calls: seq<Call>, n: nat): (r: Store)
    requires n <= |calls| && forall k :: 0 <= k < |calls| ==> Possible(lib, calls[k])
  {
    if n == 0 then s else After(lib, Run(lib, s, calls, n - 1), calls[n - 1])
  }

  /** What is recorded for a host after m calls: its key from the start, or the one shown by the first
      call for it whose write succeeded. */
  lemma {:induction false} RecordedKey(lib: HostLib, s: Store, calls: seq<Call>, m: nat, host: Text)
    requires m <= |calls| && forall k :: 0 <= k < |calls| ==> Possible(lib, calls[k])
    ensures var hosts := Run(lib, s, calls, m).hosts;
            if host in s.hosts then host in hosts && hosts[host] == s.hosts[host]
            else (host in hosts <==> exists i :: 0 <= i < m && Normalize(calls[i].hostname) == host && calls[i].written.None?)
                 && forall i :: 0 <= i < m && Normalize(calls[i].hostname) == host && calls[i].written.None?
                                && (forall j :: 0 <= j < i && Normalize(calls[j].hostname) == host ==> calls[j].written.Some?) ==>
                      host in hosts && hosts[host] == calls[i].key
  {
    hide Normalize, Possible, Line;
    if m > 0 { RecordedKey(lib, s, calls, m - 1, host); }
  }

  /** A call of a run is accepted if and only if the key recorded for its host is the one it shows, or
      nothing is recorded for the host and the write of this call succeeds. */
  lemma AcceptedExactly(lib: HostLib, s: Store, calls: seq<Call>, m: nat)
    requires m < |calls| && forall k :: 0 <= k < |calls| ==> Possible(lib, calls[k])
    ensures var host := Normalize(calls[m].hostname);
            Accepts(Run(lib, s, calls, m), calls[m])
            <==> if host in s.hosts then s.hosts[host] == calls[m].key
                 else if exists i :: 0 <= i < m && Normalize(calls[i].hostname) == host && calls[i].written.None?
                 then exists i :: 0 <= i < m && Normalize(calls[i].hostname) == host && calls[i].written.None?
                                  && (forall j :: 0 <= j < i && Normalize(calls[j].hostname) == host ==> calls[j].written.Some?)
                                  && calls[i].key == calls[m].key
                 else calls[m].written.None?
  {
    var host := Normalize(calls[m].hostname);
    RecordedKey(lib, s, calls, m, host);
    hide Normalize, Possible, Run;
    if i: nat :| i < m && Normalize(calls[i].hostname) == host && calls[i].written.None? {
      var first := FirstStored(calls, host, i);
    }
  }

  lemma {:induction false} FirstStored(calls: seq<Call>, host: Text, i: nat) returns (first: nat)
    requires i < |calls| && Normalize(calls[i].hostname) == host && calls[i].written.None?
    ensures first <= i && Normalize(calls[first].hostname) == host && calls[first].written.None?
    ensures forall j :: 0 <= j < first && Normalize(calls[j].hostname) == host ==> calls[j].written.Some?
    decreases i
  {
    hide Normalize;
    if j: nat :| j < i && Normalize(calls[j].hostname) == host && calls[j].written.None? {
      first := FirstStored(calls, host, j);
    } else {
      first := i;
    }
  }

  /** A recorded key never changes and is never dropped, whatever is called and however writes end. */
  lemma {:induction false} PinStays(lib: HostLib, s: Store, calls: seq<Call>, m: nat, n: nat, host: Text)
    requires m <= n <= |calls| && forall k :: 0 <= k < |calls| ==> Possible(lib, calls[k])
    requires host in Run(lib, s, calls, m).hosts
    ensures host in Run(lib, s, calls, n).hosts && Run(lib, s, calls, n).hosts[host] == Run(lib, s, calls, m).hosts[host]
  {
    hide Normalize, Line;
    if m < n { PinStays(lib, s, calls, m, n - 1, host); }
  }

  lemma AcceptedIsPinned(lib: HostLib, s: Store, call: Call)
    requires Possible(lib, call) && Accepts(s, call)
    ensures var host := Normalize(call.hostname);
            host in After(lib, s, call).hosts && After(lib, s, call).hosts[host] == call.key
  {
    hide Normalize, Line;
  }

  /** After a first accepted use of a host, a later call for it is accepted exactly when it shows
      the same key. */
  lemma FirstUsePins(lib: HostLib, s: Store, calls: seq<Call>, m: nat, n: nat)
    requires m < n < |calls| && forall k :: 0 <= k < |calls| ==> Possible(lib, calls[k])
    requires Accepts(Run(lib, s, calls, m), calls[m])
    requires Normalize(calls[m].hostname) == Normalize(calls[n].hostname)
    ensures Accepts(Run(lib, s, calls, n), calls[n]) <==> calls[n].key == calls[m].key
  {
    hide Normalize, After, Line;
    var host := Normalize(calls[m].hostname);
    AcceptedIsPinned(lib, Run(lib, s, calls, m), calls[m]);
    assert Run(lib, s, calls, m + 1) == After(lib, Run(lib, s, calls, m), calls[m]);
    hide Run;
    PinStays(lib, s, calls, m + 1, n, host);
  }

  /** The library's printer and parser agree on one host and key, up to normalisation. */
  ghost predicate RoundTrips(lib: HostLib, host: Text, key: Key)
  {
    var line := Line(lib, host, key);
    NL !in line && (line != [] ==> line[|line| - 1] != CR) && line in lib.parsed
    && lib.parsed[line].key == key && lib.parsed[line].hosts != []
    && forall k :: 0 <= k < |lib.parsed[line].hosts| ==> Normalize(lib.parsed[line].hosts[k]) == host
  }

  /** Reloading the file gives the map, and the next line will start on its own. */
  predicate Agrees(lib: HostLib, s: Store)
  {
    Load(lib, s.content) == Some(s.hosts) && (s.content != [] ==> s.content[|s.content| - 1] == NL)
  }

  lemma {:induction false} ScannedLine(content: Text, line: Text)
    requires NL !in line
    ensures Scanned(content + line)
            == Scanner(Scanned(content).lines, Scanned(content).current + line)
    decreases |line|
  {
    hide Scanned;
    if line == [] {
      assert content + line == content && Scanned(content).current + line == Scanned(content).current;
    } else {
      var before, b := line[..|line| - 1], line[|line| - 1];
      ScannedLine(content, before);
      assert content + line == content + before + [b];
      ScannedByte(content + before, b);
      assert Scanned(content).current + before + [b] == Scanned(content).current + line;
    }
  }

  lemma ScannedByte(content: Text, b: Byte)
    requires b != NL
    ensures Scanned(content + [b]) == Scanner(Scanned(content).lines, Scanned(content).current + [b])
  {
    assert (content + [b])[..|content|] == content;
  }

  /** One line behind a content that ends its last line: finished by a newline, or not. */
  lemma ScannedNext(content: Text, line: Text)
    requires (content != [] ==> content[|content| - 1] == NL) && NL !in line
    ensures Scanned(content).current == []
    ensures Scanned(content + line) == Scanner(Scanned(content).lines, line)
    ensures Scanned(content + line + [NL]) == Scanner(Scanned(content).lines + [DropCR(line)], [])
  {
    ScannedLine(content, line);
    assert (content + line + [NL])[..|content + line|] == content + line;
    assert [] + line == line;
  }

  lemma DropOne(line: Text)
    ensures DropCR(line + [CR]) == line
  {
    assert (line + [CR])[..|line|] == line;
  }

  /** A line behind a content that ends its last line is read back as one more line, whether a newline
      ends it, a carriage return and a newline, or the file. */
  lemma ScanAppend(content: Text, line: Text)
    requires (content != [] ==> content[|content| - 1] == NL) && NL !in line
    ensures ScanLines(content + line + [CR, NL]) == ScanLines(content) + [line]
    ensures line == [] || line[|line| - 1] != CR ==> ScanLines(content + line + [NL]) == ScanLines(content) + [line]
    ensures line != [] && line[|line| - 1] != CR ==> ScanLines(content + line) == ScanLines(content) + [line]
  {
    hide Scanned;
    ScannedNext(content, line);
    ScannedNext(content, line + [CR]);
    DropOne(line);
    assert content + line + [CR, NL] == content + (line + [CR]) + [NL];
  }

  lemma {:induction false} LoadPrefix(lib: HostLib, lines: seq<Text>, more: seq<Text>, n: nat)
    requires n <= |lines|
    ensures LoadLines(lib, lines + more, n) == LoadLines(lib, lines, n)
  {
    if n > 0 { LoadPrefix(lib, lines, more, n - 1); }
  }

  lemma {:induction false} PinAllSame(hosts: map<Text, Key>, names: seq<Text>, n: nat, key: Key, host: Text)
    requires 0 < n <= |names| && forall k :: 0 <= k < |names| ==> Normalize(names[k]) == host
    ensures PinAll(hosts, names, n, key) == hosts[host := key]
  {
    if n > 1 { PinAllSame(hosts, names, n - 1, key, host); }
  }

  /** The callback leaves the file and the map as they agree: the host is known, or the write succeeds,
      or it fails without leaving a byte. */
  predicate Harmless(s: Store, call: Call)
  {
    Normalize(call.hostname) in s.hosts || call.written.None? || call.written == Some(0)
  }

  lemma WrittenAgrees(lib: HostLib, s: Store, host: Text, key: Key)
    requires Agrees(lib, s) && RoundTrips(lib, host, key)
    ensures Load(lib, s.content + (Line(lib, host, key) + [NL])) == Some(s.hosts[host := key])
  {
    hide Normalize, ScanLines;
    var line := Line(lib, host, key);
    var lines := ScanLines(s.content);
    ScanAppend(s.content, line);
    assert s.content + (line + [NL]) == s.content + line + [NL];
    LoadPrefix(lib, lines, [line], |lines|);
    var entry := lib.parsed[line];
    PinAllSame(s.hosts, entry.hosts, |entry.hosts|, key, host);
  }

  /** A write that fails after some bytes leaves a line that is not ended, or a pin that the map has
      not. */
  lemma FailedWriteDisagrees(lib: HostLib, s: Store, host: Text, key: Key, n: nat)
    requires Agrees(lib, s) && RoundTrips(lib, host, key) && host !in s.hosts
    requires 0 < n <= |Line(lib, host, key)| + 1
    ensures !Agrees(lib, Store(s.content + (Line(lib, host, key) + [NL])[..n], s.hosts))
  {
    var line := Line(lib, host, key);
    var content := s.content + (line + [NL])[..n];
    assert content[|content| - 1] == (line + [NL])[n - 1];
    if n <= |line| {
      assert content[|content| - 1] == line[n - 1];
      assert line[n - 1] in line;
    } else {
      assert (line + [NL])[..n] == line + [NL];
      WrittenAgrees(lib, s, host, key);
      hide Load, RoundTrips, Line;
      assert host in s.hosts[host := key];
    }
  }

  /** One callback keeps file and map in agreement if and only if it is harmless. */
  lemma CallAgrees(lib: HostLib, s: Store, call: Call)
    requires Possible(lib, call) && Agrees(lib, s)
    requires RoundTrips(lib, Normalize(call.hostname), call.key)
    ensures Agrees(lib, After(lib, s, call)) <==> Harmless(s, call)
  {
    hide Normalize, Load, RoundTrips;
    var host := Normalize(call.hostname);
    var line := Line(lib, host, call.key) + [NL];
    if host !in s.hosts {
      if call.written.None? {
        WrittenAgrees(lib, s, host, call.key);
        assert (s.content + line)[|s.content + line| - 1] == NL;
      } else if call.written == Some(0) {
        assert s.content + line[..0] == s.content;
      } else {
        FailedWriteDisagrees(lib, s, host, call.key, call.written.value);
      }
    }
  }

  /** From a file that loads and ends its last line: reloading the file after each of the first n
      callbacks rebuilds the map in memory if and only if each of them is harmless when it comes. */
  lemma {:induction false} FileAgreesWithMap(lib: HostLib, s: Store, calls: seq<Call>, n: nat)
    requires n <= |calls| && Agrees(lib, s)
    requires forall k :: 0 <= k < |calls| ==>
               Possible(lib, calls[k]) && RoundTrips(lib, Normalize(calls[k].hostname), calls[k].key)
    ensures (forall m :: 0 <= m <= n ==> Agrees(lib, Run(lib, s, calls, m)))
            <==> forall m :: 0 <= m < n ==> Harmless(Run(lib, s, calls, m), calls[m])
  {
    hide Agrees, RoundTrips, Normalize, After, Harmless, Possible;
    if n == 0 {
      assert Run(lib, s, calls, 0) == s;
    } else {
      var last := Run(lib, s, calls, n - 1);
      FileAgreesWithMap(lib, s, calls, n - 1);
      assert Run(lib, s, calls, n) == After(lib, last, calls[n - 1]);
      hide Run;
      if forall m :: 0 <= m <= n - 1 ==> Agrees(lib, Run(lib, s, calls, m)) {
        CallAgrees(lib, last, calls[n - 1]);
        assert Agrees(lib, Run(lib, s, calls, n)) <==> Harmless(last, calls[n - 1]);
      }
    }
  }

  // ----- a write that fails

  /** The library prints the host "a" and the key "k" as "ak", and reads that back. */
  const PAIR_LIB: HostLib := HostLib(imap[Pin([0x61], [0x6b]) := [0x61, 0x6b]], imap[[0x61, 0x6b] := FileEntry([[0x61]], [0x6b])])

  lemma WordItself(name: Text)
    requires Word(name) && Lower(name) == name
    ensures Normalize(name) == name
  {
    NameForms(name, PORT_22);
  }

  lemma OneByteScanned()
    ensures ScanLines([]) == [] && ScanLines([0x61]) == [[0x61]]
  {
    assert [0x61][..0] == [];
    assert Scanned([0x61]) == Scanner([], [0x61]);
  }

  lemma PairRoundTrips()
    ensures Normalize([0x61]) == [0x61] && Line(PAIR_LIB, [0x61], [0x6b]) == [0x61, 0x6b]
    ensures RoundTrips(PAIR_LIB, [0x61], [0x6b])
  {
    assert Lower([0x61]) == [0x61];
    WordItself([0x61]);
    hide Normalize, Lower;
  }

  /** From an empty file, a write of that line that fails after its first byte: the file no longer
      loads, while the map is still empty. */
  lemma PartialWrite()
    ensures var s, call := Store([], map[]), Call([0x61], [0x6b], Some(1));
            Possible(PAIR_LIB, call) && Agrees(PAIR_LIB, s) && RoundTrips(PAIR_LIB, Normalize(call.hostname), call.key)
            && !Harmless(s, call) && After(PAIR_LIB, s, call) == Store([0x61], map[])
            && Load(PAIR_LIB, [0x61]) == None
  {
    hide Normalize, Lower, ScanLines, Scanned, RoundTrips, Line;
    PairRoundTrips();
    OneByteScanned();
    assert LoadLines(PAIR_LIB, [], 0) == Some(map[]);
    assert LoadLines(PAIR_LIB, [[0x61]], 1) == None;
    assert ([0x61, 0x6b] + [NL])[..1] == [0x61];
    assert [] + [0x61] == [0x61];
  }
}
