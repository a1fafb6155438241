/**
 Listening ports and their addresses: internal/metrics/ports.go. Addresses come from procfs in the
 kernel's word-wise hexadecimal; each polled port is joined to the best address of its protocol and port.
 net.IP text is not spelled out: `parse` stands for net.ParseIP.
 */
module PortIndex {
  import opened Decimal
  import opened Text
  import opened Order
  import opened Ports
  import opened Wrappers

  type Byte = x: int | 0 <= x < 256

  // ---------------------------------------------------------------- hexadecimal

  predicate IsHex(c: char) { IsDigit(c) || 'A' <= c <= 'F' || 'a' <= c <= 'f' }

  function HexValue(c: char): (v: nat)
    requires IsHex(c)
    ensures v < 16
  {
    if IsDigit(c) then c as int - '0' as int
    else if 'A' <= c <= 'F' then c as int - 'A' as int + 10
    else c as int - 'a' as int + 10
  }

  /** %X of one digit. */
  function HexDigit(v: nat): (c: char)
    requires v < 16
    ensures IsHex(c) && HexValue(c) == v
  {
    if v < 10 then (v + '0' as int) as char else (v - 10 + 'A' as int) as char
  }

  function UpperHex(c: char): char { if 'a' <= c <= 'f' then (c as int - 'a' as int + 'A' as int) as char else c }

  function Upper(s: string): string { seq(|s|, i requires 0 <= i < |s| => UpperHex(s[i])) }

  lemma HexDigitOfValue(c: char)
    requires IsHex(c)
    ensures HexDigit(HexValue(c)) == UpperHex(c)
  {
  }

  /** hex.DecodeString: pairs of digits in either case, and nothing else. */
  function DecodeHex(s: string): (r: Option<seq<Byte>>)
    ensures r.Some? ==> |s| == 2 * |r.value|
  {
    if s == "" then Some([])
    else if |s| == 1 || !IsHex(s[0]) || !IsHex(s[1]) then None
    else
      match DecodeHex(s[2..])
      case None => None
      case Some(rest) => Some([16 * HexValue(s[0]) + HexValue(s[1])] + rest)
  }

  function EncodeByte(b: Byte): (s: string)
    ensures |s| == 2
  {
    [HexDigit(b / 16), HexDigit(b % 16)]
  }

  function EncodeHex(bytes: seq<Byte>): string {
    if bytes == [] then "" else EncodeByte(bytes[0]) + EncodeHex(bytes[1..])
  }

  lemma {:induction false} DecodeOfEncode(bytes: seq<Byte>)
    ensures DecodeHex(EncodeHex(bytes)) == Some(bytes)
    ensures forall i :: 0 <= i < |EncodeHex(bytes)| ==> IsHex(EncodeHex(bytes)[i])
  {
    if bytes != [] {
      DecodeOfEncode(bytes[1..]);
      var s := EncodeHex(bytes);
      assert s[2..] == EncodeHex(bytes[1..]);
      assert s[0] == HexDigit(bytes[0] / 16) && s[1] == HexDigit(bytes[0] % 16);
      assert bytes == [bytes[0]] + bytes[1..];
    }
  }

  lemma {:induction false} EncodeOfDecode(s: string)
    requires DecodeHex(s).Some?
    ensures EncodeHex(DecodeHex(s).value) == Upper(s)
  {
    if s != "" {
      EncodeOfDecode(s[2..]);
      var bytes := DecodeHex(s).value;
      assert bytes[1..] == DecodeHex(s[2..]).value;
      assert bytes[0] / 16 == HexValue(s[0]) && bytes[0] % 16 == HexValue(s[1]);
      HexDigitOfValue(s[0]);
      HexDigitOfValue(s[1]);
      assert Upper(s) == Upper(s[..2]) + Upper(s[2..]);
    }
  }

  // ---------------------------------------------------------------- addresses

  /** The byte of a 32-bit word that the kernel prints in place of byte k. */
  function Mirror(k: nat): (m: nat)
    ensures m / 4 == k / 4
  {
    4 * (k / 4) + 3 - k % 4
  }

  lemma MirrorTwice(k: nat)
    ensures Mirror(Mirror(k)) == k
  {
  }

  /** The kernel prints a network-order address as little-endian 32-bit words. */
  function KernelOrder(ip: seq<Byte>): (r: seq<Byte>)
    requires |ip| % 4 == 0
    ensures |r| == |ip|
  {
    seq(|ip|, k requires 0 <= k < |ip| => ip[Mirror(k)])
  }

  lemma KernelOrderTwice(ip: seq<Byte>)
    requires |ip| % 4 == 0
    ensures KernelOrder(KernelOrder(ip)) == ip
  {
    forall k | 0 <= k < |ip| ensures KernelOrder(KernelOrder(ip))[k] == ip[k] {
      MirrorTwice(k);
    }
  }

  function IPLength(ipv6: bool): nat { if ipv6 then 16 else 4 }

  /** What an address field of procfs means; decodeProcIP computes it. */
  function AddressOf(host: string, ipv6: bool): Option<seq<Byte>> {
    match DecodeHex(host)
    case None => None
    case Some(raw) => if |raw| == IPLength(ipv6) then Some(KernelOrder(raw)) else None
  }

  method DecodeProcIP(value: string, ipv6: bool) returns (r: Option<seq<Byte>>)
    ensures r == AddressOf(value, ipv6)
  {
    var decodedHex := DecodeHex(value);
    if decodedHex.None? { return None; }
    var raw := decodedHex.value;
    if !ipv6 {
      if |raw| != 4 { return None; }
      assert KernelOrder(raw) == [raw[3], raw[2], raw[1], raw[0]];
      return Some([raw[3], raw[2], raw[1], raw[0]]);
    }
    if |raw| != 16 { return None; }
    var decoded := new Byte[16];
    var i := 0;
    while i < |raw|
      invariant i % 4 == 0 && 0 <= i <= 16
      invariant forall k :: 0 <= k < i ==> decoded[k] == raw[Mirror(k)]
    {
      decoded[i] := raw[i + 3];
      decoded[i + 1] := raw[i + 2];
      decoded[i + 2] := raw[i + 1];
      decoded[i + 3] := raw[i];
      i := i + 4;
    }
    assert decoded[..] == KernelOrder(raw);
    r := Some(decoded[..]);
  }

  function HexNumber(s: string): nat
    requires forall i :: 0 <= i < |s| ==> IsHex(s[i])
  {
    if s == "" then 0 else 16 * HexNumber(s[..|s| - 1]) + HexValue(s[|s| - 1])
  }

  /** strconv.ParseUint(s, 16, 16). */
  function ParsePort(s: string): (r: Option<nat>)
    ensures r.Some? ==> r.value < 0x1_0000
  {
    if s == "" || exists i :: 0 <= i < |s| && !IsHex(s[i]) then None
    else if HexNumber(s) < 0x1_0000 then Some(HexNumber(s)) else None
  }

  datatype Endpoint = Endpoint(ip: seq<Byte>, port: nat)

  /** What a socket address field means; decodeSocketAddress computes it. */
  function EndpointOf(value: string, ipv6: bool): Option<Endpoint> {
    var i := IndexOf(value, ':');
    if i == |value| then None
    else
      match ParsePort(value[i + 1..])
      case None => None
      case Some(port) =>
        match AddressOf(value[..i], ipv6)
        case None => None
        case Some(ip) => Some(Endpoint(ip, port))
  }

  method DecodeSocketAddress(value: string, ipv6: bool) returns (r: Option<Endpoint>)
    ensures r == EndpointOf(value, ipv6)
  {
    var i := IndexOf(value, ':');
    if i == |value| { return None; }
    var port := ParsePort(value[i + 1..]);
    if port.None? { return None; }
    var ip := DecodeProcIP(value[..i], ipv6);
    if ip.None? { return None; }
    return Some(Endpoint(ip.value, port.value));
  }

  /** %04X of a port. */
  function PortHex(port: nat): string
    requires port < 0x1_0000
  {
    EncodeByte(port / 256) + EncodeByte(port % 256)
  }

  lemma PortReadsBack(port: nat)
    requires port < 0x1_0000
    ensures ParsePort(PortHex(port)) == Some(port)
  {
    var s := PortHex(port);
    var s3, s2, s1 := s[..3], s[..2], s[..1];
    assert s[..3][..2] == s2 && s2[..1] == s1 && s1[..0] == "";
    assert HexNumber(s1) == HexValue(s[0]);
    assert HexNumber(s2) == 16 * HexNumber(s1) + HexValue(s[1]);
    assert HexNumber(s3) == 16 * HexNumber(s2) + HexValue(s[2]);
  }

  /** The local address field of /proc/net/tcp and its siblings on a little-endian machine. */
  function KernelField(e: Endpoint): string
    requires |e.ip| % 4 == 0 && e.port < 0x1_0000
  {
    EncodeHex(KernelOrder(e.ip)) + [':'] + PortHex(e.port)
  }

  lemma HexHasNoColon(s: string)
    requires forall i :: 0 <= i < |s| ==> IsHex(s[i])
    ensures ':' !in s
  {
    assert !IsHex(':');
  }

  lemma EndpointInParts(host: string, port: string, ipv6: bool)
    requires ':' !in host && AddressOf(host, ipv6).Some? && ParsePort(port).Some?
    ensures EndpointOf(host + [':'] + port, ipv6) == Some(Endpoint(AddressOf(host, ipv6).value, ParsePort(port).value))
  {
    var value := host + [':'] + port;
    FirstIndex(host, port, ':');
    assert value[..|host|] == host && value[|host| + 1..] == port;
  }

  /** Decoding undoes what the kernel printed, for every IPv4 and IPv6 address and port. */
  lemma KernelFieldReadsBack(e: Endpoint, ipv6: bool)
    requires |e.ip| == (if ipv6 then 16 else 4) && e.port < 0x1_0000
    ensures EndpointOf(KernelField(e), ipv6) == Some(e)
  {
    var host := EncodeHex(KernelOrder(e.ip));
    DecodeOfEncode(KernelOrder(e.ip));
    KernelOrderTwice(e.ip);
    HexHasNoColon(host);
    PortReadsBack(e.port);
    EndpointInParts(host, PortHex(e.port), ipv6);
  }

  /** And a field that decodes is, up to letter case, the one the kernel prints for that address. */
  lemma DecodedAddressPrintsBack(host: string, ipv6: bool)
    requires AddressOf(host, ipv6).Some?
    ensures EncodeHex(KernelOrder(AddressOf(host, ipv6).value)) == Upper(host)
  {
    KernelOrderTwice(DecodeHex(host).value);
    EncodeOfDecode(host);
  }

  /** Within each word the bytes come last first. */
  lemma KernelOrderIs(ip: seq<Byte>, w: nat, b: nat)
    requires |ip| % 4 == 0 && 4 * w + 3 < |ip| && b < 4
    ensures KernelOrder(ip)[4 * w + b] == ip[4 * w + 3 - b]
  {
  }

  /** The loopback's port 80 as the kernel prints it. */
  lemma LoopbackField()
    ensures KernelField(Endpoint([127, 0, 0, 1], 80)) == "0100007F:0050"
  {
    LoopbackHost();
    BytesPrint();
    assert PortHex(80) == EncodeByte(0) + EncodeByte(80);
  }

  lemma LoopbackHost()
    ensures EncodeHex(KernelOrder([127, 0, 0, 1])) == EncodeByte(1) + EncodeByte(0) + EncodeByte(0) + EncodeByte(127)
  {
    assert KernelOrder([127, 0, 0, 1]) == [1, 0, 0, 127];
    EncodeFour(1, 0, 0, 127);
  }

  lemma EncodeFour(a: Byte, b: Byte, c: Byte, d: Byte)
    ensures EncodeHex([a, b, c, d]) == EncodeByte(a) + EncodeByte(b) + EncodeByte(c) + EncodeByte(d)
  {
    var all := [a, b, c, d];
    assert all[1..] == [b, c, d] && [b, c, d][1..] == [c, d] && [c, d][1..] == [d] && [d][1..] == [];
    assert EncodeHex([d]) == EncodeByte(d);
    assert EncodeHex([c, d]) == EncodeByte(c) + EncodeByte(d);
  }

  lemma BytesPrint()
    ensures EncodeByte(0) == "00" && EncodeByte(1) == "01" && EncodeByte(80) == "50" && EncodeByte(127) == "7F"
  {
  }

  lemma {:induction false} DecodesIff(s: string)
    ensures DecodeHex(s).Some? <==> |s| % 2 == 0 && forall i :: 0 <= i < |s| ==> IsHex(s[i])
    decreases |s|
  {
    if |s| >= 2 {
      DecodesIff(s[2..]);
      assert forall i :: 2 <= i < |s| ==> s[i] == s[2..][i - 2];
      assert forall i :: 0 <= i < |s| - 2 ==> s[2..][i] == s[i + 2];
    }
  }

  /** An address field decodes exactly if it is eight hexadecimal digits, or 32 for IPv6. */
  lemma AddressDecodesIff(host: string, ipv6: bool)
    ensures AddressOf(host, ipv6).Some?
       <==> |host| == (if ipv6 then 32 else 8) && forall i :: 0 <= i < |host| ==> IsHexDigit(host[i])
  {
    DecodesIff(host);
    assert forall i :: 0 <= i < |host| ==> (IsHex(host[i]) <==> IsHexDigit(host[i]));
  }

  /** 0 to 9, A to F, a to f. */
  predicate IsHexDigit(c: char) {
    48 <= c as int <= 57 || 65 <= c as int <= 70 || 97 <= c as int <= 102
  }

  /** Leading zeros do not change a port. */
  lemma {:induction false} LeadingZeroOfPort(s: string)
    requires s != "" && forall i :: 0 <= i < |s| ==> IsHex(s[i])
    ensures forall i :: 0 <= i < |['0'] + s| ==> IsHex((['0'] + s)[i])
    ensures HexNumber(['0'] + s) == HexNumber(s) && ParsePort(['0'] + s) == ParsePort(s)
    decreases |s|
  {
    var p := ['0'] + s;
    var m := |s| - 1;
    assert p[..m + 1] == ['0'] + s[..m] && p[m + 1] == s[m];
    if m == 0 {
      assert s[..0] == "" && (['0'] + "")[..0] == "";
      assert HexNumber(['0'] + "") == 16 * HexNumber("") + HexValue('0');
    } else {
      LeadingZeroOfPort(s[..m]);
    }
  }

  /** Without them, a port has at most four digits, and those always fit. */
  lemma {:induction false} PortSize(s: string)
    requires forall i :: 0 <= i < |s| ==> IsHex(s[i])
    ensures s != "" && s[0] != '0' && |s| > 4 ==> HexNumber(s) >= 0x1_0000 && ParsePort(s).None?
    ensures 1 <= |s| <= 4 ==> ParsePort(s) == Some(HexNumber(s))
  {
    if s != "" && s[0] != '0' && |s| > 4 {
      LongIsLarge(s);
    }
    if 1 <= |s| <= 4 { ShortIsSmall(s); }
  }

  lemma {:induction false} LongIsLarge(s: string)
    requires |s| >= 1 && s[0] != '0' && forall i :: 0 <= i < |s| ==> IsHex(s[i])
    ensures |s| >= 2 ==> HexNumber(s) >= 16
    ensures |s| >= 3 ==> HexNumber(s) >= 256
    ensures |s| >= 4 ==> HexNumber(s) >= 4096
    ensures |s| >= 5 ==> HexNumber(s) >= 0x1_0000
    ensures HexNumber(s) >= 1
    decreases |s|
  {
    if |s| == 1 {
      assert s[..0] == "" && HexNumber("") == 0;
      assert HexNumber(s) == HexValue(s[0]);
    } else {
      LongIsLarge(s[..|s| - 1]);
    }
  }

  lemma {:induction false} ShortIsSmall(s: string)
    requires |s| <= 4 && forall i :: 0 <= i < |s| ==> IsHex(s[i])
    ensures HexNumber(s) < (if |s| == 0 then 1 else if |s| == 1 then 16 else if |s| == 2 then 256
                            else if |s| == 3 then 4096 else 0x1_0000)
    decreases |s|
  {
    if s != "" { ShortIsSmall(s[..|s| - 1]); }
  }

  /** A socket field decodes exactly if its first colon separates an address from a port. */
  lemma EndpointIff(value: string, ipv6: bool, e: Endpoint)
    ensures EndpointOf(value, ipv6) == Some(e)
       <==> exists host, port :: value == host + [':'] + port && ':' !in host
                                 && AddressOf(host, ipv6) == Some(e.ip) && ParsePort(port) == Some(e.port)
  {
    var i := IndexOf(value, ':');
    if i < |value| { CutAt(value, i); }
    if host, port :| value == host + [':'] + port && ':' !in host
                     && AddressOf(host, ipv6) == Some(e.ip) && ParsePort(port) == Some(e.port) {
      EndpointInParts(host, port, ipv6);
    }
  }

  // ---------------------------------------------------------------- choosing an address

  datatype Socket = Socket(addr: string, port: nat, proto: string)

  /** net.IP.To4: four bytes, or sixteen that map an IPv4 address. */
  function To4(ip: seq<Byte>): Option<seq<Byte>> {
    if |ip| == 4 then Some(ip)
    else if |ip| == 16 && ip[..10] == seq(10, _ => 0) && ip[10] == 255 && ip[11] == 255 then Some(ip[12..])
    else None
  }

  predicate IsLoopback6(ip: seq<Byte>) { ip == seq(15, _ => 0) + [1] }

  /** socketAddrScore on the result of net.ParseIP. */
  function Score(ip: Option<seq<Byte>>): nat {
    match ip
    case None => 4
    case Some(bytes) =>
      match To4(bytes)
      case Some(v4) => if v4[0] == 127 then 2 else 0
      case None => if IsLoopback6(bytes) then 3 else 1
  }

  type Parser = string -> Option<seq<Byte>>

  function Cost(parse: Parser, s: Socket): nat { Score(parse(s.addr)) }

  /** Row j has the least score, and no row before it has the same. */
  ghost predicate FirstBest(parse: Parser, rows: seq<Socket>, j: int) {
    && 0 <= j < |rows|
    && (forall k :: 0 <= k < |rows| ==> Cost(parse, rows[j]) <= Cost(parse, rows[k]))
    && (forall k :: 0 <= k < j ==> Cost(parse, rows[j]) < Cost(parse, rows[k]))
  }

  /** What an address is: outside the machine or on its loopback, IPv4 (mapped into IPv6 or not) or IPv6. */
  datatype Kind = Outside4 | Outside6 | Loopback4 | Loopback6 | Unreadable

  function KindOf(ip: Option<seq<Byte>>): Kind {
    match ip
    case None => Unreadable
    case Some(b) =>
      if |b| == 4 then (if b[0] == 127 then Loopback4 else Outside4)
      else if |b| == 16 && (forall i :: 0 <= i < 10 ==> b[i] == 0) && b[10] == b[11] == 255 then
        (if b[12] == 127 then Loopback4 else Outside4)
      else if |b| == 16 && (forall i :: 0 <= i < 15 ==> b[i] == 0) && b[15] == 1 then Loopback6
      else Outside6
  }

  /** The kind that is preferred among some. */
  function BestOf(kinds: set<Kind>): Kind {
    if Outside4 in kinds then Outside4
    else if Outside6 in kinds then Outside6
    else if Loopback4 in kinds then Loopback4
    else if Loopback6 in kinds then Loopback6
    else Unreadable
  }

  function KindsOf(parse: Parser, rows: seq<Socket>): set<Kind> { set s | s in rows :: KindOf(parse(s.addr)) }

  /** Row j is of the preferred kind, and no row before it is. */
  ghost predicate FirstOfBestKind(parse: Parser, rows: seq<Socket>, j: int) {
    && 0 <= j < |rows| && KindOf(parse(rows[j].addr)) == BestOf(KindsOf(parse, rows))
    && forall k :: 0 <= k < j ==> KindOf(parse(rows[k].addr)) != BestOf(KindsOf(parse, rows))
  }

  function RankOf(kind: Kind): nat {
    match kind
    case Outside4 => 0
    case Outside6 => 1
    case Loopback4 => 2
    case Loopback6 => 3
    case Unreadable => 4
  }

  lemma ScoreRanksKinds(ip: Option<seq<Byte>>)
    ensures Score(ip) == RankOf(KindOf(ip))
  {
    if ip.Some? && |ip.value| == 16 {
      var b := ip.value;
      assert b[..10] == seq(10, _ => 0) <==> forall i :: 0 <= i < 10 ==> b[i] == 0 by {
        assert forall i :: 0 <= i < 10 ==> b[..10][i] == b[i];
      }
      assert IsLoopback6(b) <==> (forall i :: 0 <= i < 15 ==> b[i] == 0) && b[15] == 1 by {
        var one := seq(15, _ => 0) + [1];
        assert forall i :: 0 <= i < 15 ==> one[i] == 0;
        assert one[15] == 1;
      }
    }
  }

  lemma BestOfIsLeast(kinds: set<Kind>, k: Kind)
    requires k in kinds
    ensures BestOf(kinds) in kinds && RankOf(BestOf(kinds)) <= RankOf(k)
    ensures RankOf(k) == RankOf(BestOf(kinds)) ==> k == BestOf(kinds)
  {
  }

  lemma FirstBestIsFirstOfKind(parse: Parser, rows: seq<Socket>, j: int)
    requires FirstBest(parse, rows, j)
    ensures FirstOfBestKind(parse, rows, j)
  {
    var kinds := KindsOf(parse, rows);
    forall k | 0 <= k < |rows|
      ensures Cost(parse, rows[k]) == RankOf(KindOf(parse(rows[k].addr))) >= RankOf(BestOf(kinds))
      ensures Cost(parse, rows[k]) == RankOf(BestOf(kinds)) ==> KindOf(parse(rows[k].addr)) == BestOf(kinds)
    {
      assert rows[k] in rows && KindOf(parse(rows[k].addr)) in kinds;
      ScoreRanksKinds(parse(rows[k].addr));
      BestOfIsLeast(kinds, KindOf(parse(rows[k].addr)));
    }
    BestOfIsLeast(kinds, KindOf(parse(rows[j].addr)));
    var best :| best in rows && KindOf(parse(best.addr)) == BestOf(kinds);
    var b :| 0 <= b < |rows| && rows[b] == best;
    assert Cost(parse, rows[b]) == RankOf(BestOf(kinds));
  }

  method SelectSocketAddr(parse: Parser, rows: seq<Socket>) returns (addr: string)
    ensures rows == [] ==> addr == ""
    ensures rows != [] ==> exists j :: FirstBest(parse, rows, j) && addr == rows[j].addr
    ensures rows != [] ==> exists j :: FirstOfBestKind(parse, rows, j) && addr == rows[j].addr
  {
    if rows == [] { return ""; }
    var best := rows[0];
    var bestScore := Cost(parse, best);
    ghost var j := 0;
    for i := 1 to |rows|
      invariant FirstBest(parse, rows[..i], j) && best == rows[j] && bestScore == Cost(parse, best)
    {
      var score := Cost(parse, rows[i]);
      assert rows[..i + 1] == rows[..i] + [rows[i]];
      if score < bestScore {
        best, bestScore := rows[i], score;
        j := i;
      }
    }
    assert rows[..|rows|] == rows;
    FirstBestIsFirstOfKind(parse, rows, j);
    addr := best.addr;
  }

  datatype Key = Key(proto: string, port: nat)

  function KeyOf(s: Socket): Key { Key(s.proto, s.port) }

  /** The sockets of one key, in order: what the index holds for it. */
  function Matching(sockets: seq<Socket>, k: Key): seq<Socket> {
    if sockets == [] then []
    else
      var m := |sockets| - 1;
      Matching(sockets[..m], k) + if KeyOf(sockets[m]) == k then [sockets[m]] else []
  }

  /** The address a scan of all sockets gives: that of the first minimum-score socket with the key. */
  ghost predicate ScanBest(parse: Parser, sockets: seq<Socket>, k: Key, i: int) {
    && 0 <= i < |sockets| && KeyOf(sockets[i]) == k
    && (forall n :: 0 <= n < |sockets| && KeyOf(sockets[n]) == k ==> Cost(parse, sockets[i]) <= Cost(parse, sockets[n]))
    && (forall n :: 0 <= n < i && KeyOf(sockets[n]) == k ==> Cost(parse, sockets[i]) < Cost(parse, sockets[n]))
  }

  ghost predicate IsAddress(parse: Parser, sockets: seq<Socket>, k: Key, addr: string) {
    if forall n :: 0 <= n < |sockets| ==> KeyOf(sockets[n]) != k then addr == ""
    else exists i :: ScanBest(parse, sockets, k, i) && addr == sockets[i].addr
  }

  lemma {:induction false} MatchingMembers(sockets: seq<Socket>, k: Key)
    ensures forall s :: s in Matching(sockets, k) <==> s in sockets && KeyOf(s) == k
    decreases |sockets|
  {
    if sockets != [] {
      var m := |sockets| - 1;
      MatchingMembers(sockets[..m], k);
      assert sockets == sockets[..m] + [sockets[m]];
    }
  }

  /** A socket added at the end either becomes the best, or leaves it where it was. */
  lemma ScanBestGrows(parse: Parser, sockets: seq<Socket>, k: Key, s: Socket)
    ensures forall i :: ScanBest(parse, sockets, k, i) && (KeyOf(s) == k ==> Cost(parse, sockets[i]) <= Cost(parse, s))
              ==> ScanBest(parse, sockets + [s], k, i)
    ensures (KeyOf(s) == k
             && forall n :: 0 <= n < |sockets| && KeyOf(sockets[n]) == k ==> Cost(parse, s) < Cost(parse, sockets[n]))
              ==> ScanBest(parse, sockets + [s], k, |sockets|)
  {
  }

  /** The first best of the indexed rows is the first best of the scan. */
  lemma {:induction false} IndexedBestIsScanned(parse: Parser, sockets: seq<Socket>, k: Key, j: nat) returns (i: nat)
    requires FirstBest(parse, Matching(sockets, k), j)
    ensures ScanBest(parse, sockets, k, i) && sockets[i] == Matching(sockets, k)[j]
    decreases |sockets|
  {
    var m := |sockets| - 1;
    var rest, rows := Matching(sockets[..m], k), Matching(sockets, k);
    assert sockets == sockets[..m] + [sockets[m]];
    assert forall n :: 0 <= n < |rest| ==> rest[n] == rows[n];
    ScanBestGrows(parse, sockets[..m], k, sockets[m]);
    if j < |rest| {
      i := IndexedBestIsScanned(parse, sockets[..m], k, j);
      assert KeyOf(sockets[m]) == k ==> rows[|rest|] == sockets[m];
    } else {
      i := m;
      MatchingMembers(sockets[..m], k);
      assert rows[j] == sockets[m] && j == |rest|;
      forall n | 0 <= n < m && KeyOf(sockets[n]) == k ensures Cost(parse, sockets[m]) < Cost(parse, sockets[n]) {
        assert sockets[n] == sockets[..m][n] && sockets[n] in rest;
        var x :| 0 <= x < |rest| && rest[x] == sockets[n];
        assert rows[x] == rest[x];
      }
    }
  }

  /** The kinds of address listed for a protocol and port. */
  function KindsFor(parse: Parser, sockets: seq<Socket>, proto: string, port: nat): set<Kind> {
    set s | s in sockets && s.proto == proto && s.port == port :: KindOf(parse(s.addr))
  }

  /** Socket i is of the preferred kind for its protocol and port, and the first such. */
  ghost predicate PreferredAt(parse: Parser, sockets: seq<Socket>, proto: string, port: nat, i: int) {
    && 0 <= i < |sockets| && sockets[i].proto == proto && sockets[i].port == port
    && var best := BestOf(KindsFor(parse, sockets, proto, port));
       && KindOf(parse(sockets[i].addr)) == best
       && forall n :: 0 <= n < i && sockets[n].proto == proto && sockets[n].port == port ==>
            KindOf(parse(sockets[n].addr)) != best
  }

  /**
   The address of a port: of the sockets of its protocol and port the first outside IPv4 address, else the
   first outside IPv6 one, else the first on the IPv4 loopback, else on the IPv6 loopback, else the first
   unreadable one; with no such socket, none.
   */
  ghost predicate IsPreferred(parse: Parser, sockets: seq<Socket>, proto: string, port: nat, addr: string) {
    if forall s :: s in sockets ==> s.proto != proto || s.port != port then addr == ""
    else exists i :: PreferredAt(parse, sockets, proto, port, i) && addr == sockets[i].addr
  }

  lemma ScanBestIffPreferred(parse: Parser, sockets: seq<Socket>, k: Key, i: int)
    ensures ScanBest(parse, sockets, k, i) <==> PreferredAt(parse, sockets, k.proto, k.port, i)
  {
    var kinds := KindsFor(parse, sockets, k.proto, k.port);
    forall n | 0 <= n < |sockets| && KeyOf(sockets[n]) == k
      ensures Cost(parse, sockets[n]) == RankOf(KindOf(parse(sockets[n].addr))) >= RankOf(BestOf(kinds))
      ensures Cost(parse, sockets[n]) == RankOf(BestOf(kinds)) <==> KindOf(parse(sockets[n].addr)) == BestOf(kinds)
    {
      assert sockets[n] in sockets && KindOf(parse(sockets[n].addr)) in kinds;
      ScoreRanksKinds(parse(sockets[n].addr));
      BestOfIsLeast(kinds, KindOf(parse(sockets[n].addr)));
    }
    if 0 <= i < |sockets| && KeyOf(sockets[i]) == k {
      assert sockets[i] in sockets && KindOf(parse(sockets[i].addr)) in kinds;
      BestOfIsLeast(kinds, KindOf(parse(sockets[i].addr)));
      var best :| best in sockets && KeyOf(best) == k && KindOf(parse(best.addr)) == BestOf(kinds);
      var b :| 0 <= b < |sockets| && sockets[b] == best;
      assert Cost(parse, sockets[b]) == RankOf(BestOf(kinds));
    }
  }

  /** The scan's address is the preferred one, and no other is. */
  lemma AddressIffPreferred(parse: Parser, sockets: seq<Socket>, k: Key, addr: string)
    ensures IsAddress(parse, sockets, k, addr) <==> IsPreferred(parse, sockets, k.proto, k.port, addr)
  {
    forall i ensures ScanBest(parse, sockets, k, i) <==> PreferredAt(parse, sockets, k.proto, k.port, i) {
      ScanBestIffPreferred(parse, sockets, k, i);
    }
    assert (forall n :: 0 <= n < |sockets| ==> KeyOf(sockets[n]) != k)
        <==> forall s :: s in sockets ==> s.proto != k.proto || s.port != k.port by {
      assert forall n :: 0 <= n < |sockets| ==> sockets[n] in sockets;
    }
  }

  /** The scan has one answer. */
  lemma AddressIsUnique(parse: Parser, sockets: seq<Socket>, k: Key, a: string, b: string)
    requires IsAddress(parse, sockets, k, a) && IsAddress(parse, sockets, k, b)
    ensures a == b
  {
    if exists n :: 0 <= n < |sockets| && KeyOf(sockets[n]) == k {
      var i :| ScanBest(parse, sockets, k, i) && a == sockets[i].addr;
      var j :| ScanBest(parse, sockets, k, j) && b == sockets[j].addr;
      assert Cost(parse, sockets[i]) == Cost(parse, sockets[j]);
    }
  }

  lemma IndexedAddress(parse: Parser, sockets: seq<Socket>, k: Key, addr: string)
    requires var rows := Matching(sockets, k);
             if rows == [] then addr == "" else exists j :: FirstBest(parse, rows, j) && addr == rows[j].addr
    ensures IsAddress(parse, sockets, k, addr)
  {
    MatchingMembers(sockets, k);
    var rows := Matching(sockets, k);
    if rows == [] {
      forall n | 0 <= n < |sockets| ensures KeyOf(sockets[n]) != k {
        assert sockets[n] in sockets && sockets[n] !in rows;
      }
    } else {
      assert rows[0] in rows;
      var j :| FirstBest(parse, rows, j) && addr == rows[j].addr;
      var i := IndexedBestIsScanned(parse, sockets, k, j);
    }
  }

  // ---------------------------------------------------------------- snapshots

  /** One port of the polled list. */
  datatype Entry = Entry(proto: string, port: nat, process: string, pid: int)

  ghost predicate Describes(parse: Parser, sockets: seq<Socket>, e: Entry, p: Port) {
    && p.port == e.port && p.proto == e.proto && p.pid == e.pid && p.process == e.process
    && IsPreferred(parse, sockets, e.proto, e.port, p.addr)
  }

  ghost predicate Built(parse: Parser, sockets: seq<Socket>, entries: seq<Entry>, built: seq<Port>) {
    |built| == |entries| && forall i :: 0 <= i < |entries| ==> Describes(parse, sockets, entries[i], built[i])
  }

  function Rows(index: map<Key, seq<Socket>>, k: Key): seq<Socket> { if k in index then index[k] else [] }

  method IndexSockets(sockets: seq<Socket>) returns (index: map<Key, seq<Socket>>)
    ensures forall k :: Rows(index, k) == Matching(sockets, k)
  {
    index := map[];
    for i := 0 to |sockets|
      invariant forall k :: Rows(index, k) == Matching(sockets[..i], k)
    {
      assert sockets[..i + 1][..i] == sockets[..i];
      var k := KeyOf(sockets[i]);
      index := index[k := Rows(index, k) + [sockets[i]]];
    }
    assert sockets[..|sockets|] == sockets;
  }

  method BuildSnapshot(parse: Parser, entries: seq<Entry>, sockets: seq<Socket>) returns (built: seq<Port>)
    ensures Built(parse, sockets, entries, built)
  {
    var index := IndexSockets(sockets);
    built := [];
    for i := 0 to |entries|
      invariant Built(parse, sockets, entries[..i], built)
    {
      var e := entries[i];
      var k := Key(e.proto, e.port);
      var addr := SelectSocketAddr(parse, Rows(index, k));
      IndexedAddress(parse, sockets, k, addr);
      AddressIffPreferred(parse, sockets, k, addr);
      built := built + [Port(addr, e.port, e.proto, e.pid, e.process)];
    }
    assert entries[..|entries|] == entries;
  }

  /** A snapshot: every polled entry with its scanned address, in the order of snapshots. */
  ghost predicate IsSnapshot(parse: Parser, sockets: seq<Socket>, entries: seq<Entry>, s: seq<Port>) {
    && SortedBy(SnapshotAtMost, s)
    && exists built :: Built(parse, sockets, entries, built) && multiset(built) == multiset(s)
  }

  function Without<T>(s: seq<T>, i: nat): (r: seq<T>)
    requires i < |s|
    ensures |r| == |s| - 1 && multiset(r) == multiset(s) - multiset{s[i]}
    ensures forall k :: 0 <= k < |r| ==> r[k] == if k < i then s[k] else s[k + 1]
  {
    assert s == s[..i] + [s[i]] + s[i + 1..];
    s[..i] + s[i + 1..]
  }

  lemma BuiltWithout(parse: Parser, sockets: seq<Socket>, entries: seq<Entry>, built: seq<Port>, i: nat)
    requires Built(parse, sockets, entries, built) && i < |entries|
    ensures Built(parse, sockets, Without(entries, i), Without(built, i))
  {
    var es, b := Without(entries, i), Without(built, i);
    forall k | 0 <= k < |es| ensures Describes(parse, sockets, es[k], b[k]) {
      assert Describes(parse, sockets, entries[if k < i then k else k + 1], built[if k < i then k else k + 1]);
    }
  }

  lemma DescribedOnce(parse: Parser, sockets: seq<Socket>, e: Entry, p: Port, q: Port)
    requires Describes(parse, sockets, e, p) && Describes(parse, sockets, e, q)
    ensures p == q
  {
    AddressIffPreferred(parse, sockets, Key(e.proto, e.port), p.addr);
    AddressIffPreferred(parse, sockets, Key(e.proto, e.port), q.addr);
    AddressIsUnique(parse, sockets, Key(e.proto, e.port), p.addr, q.addr);
  }

  lemma SameAfterRemoval<T>(a: seq<T>, b: seq<T>, i: nat, j: nat)
    requires i < |a| && j < |b| && a[i] == b[j]
    ensures multiset(a) == multiset(b) <==> multiset(Without(a, i)) == multiset(Without(b, j))
  {
    assert multiset(a) == multiset(Without(a, i)) + multiset{a[i]};
    assert multiset(b) == multiset(Without(b, j)) + multiset{b[j]};
  }

  lemma {:induction false} BuiltPermutes(parse: Parser, sockets: seq<Socket>, es: seq<Entry>, fs: seq<Entry>,
                                         b: seq<Port>, c: seq<Port>)
    requires multiset(es) == multiset(fs)
    requires Built(parse, sockets, es, b) && Built(parse, sockets, fs, c)
    ensures multiset(b) == multiset(c)
    decreases |es|
  {
    PermutationMembers(es, fs);
    if es != [] {
      assert es[0] in fs;
      var j :| 0 <= j < |fs| && fs[j] == es[0];
      SameAfterRemoval(es, fs, 0, j);
      BuiltWithout(parse, sockets, es, b, 0);
      BuiltWithout(parse, sockets, fs, c, j);
      BuiltPermutes(parse, sockets, Without(es, 0), Without(fs, j), Without(b, 0), Without(c, j));
      DescribedOnce(parse, sockets, es[0], b[0], c[j]);
      SameAfterRemoval(b, c, 0, j);
    } else {
      assert b == [] && c == [];
    }
  }

  /** The order in which the poller lists the ports does not show in the snapshot. */
  lemma SnapshotIsOrderFree(parse: Parser, sockets: seq<Socket>, es: seq<Entry>, fs: seq<Entry>, s: seq<Port>,
                            t: seq<Port>)
    requires multiset(es) == multiset(fs)
    requires IsSnapshot(parse, sockets, es, s) && IsSnapshot(parse, sockets, fs, t)
    ensures s == t
  {
    var b :| Built(parse, sockets, es, b) && multiset(b) == multiset(s);
    var c :| Built(parse, sockets, fs, c) && multiset(c) == multiset(t);
    BuiltPermutes(parse, sockets, es, fs, b, c);
    SnapshotOrderIsTotal();
    SortedUnique(SnapshotAtMost, s, t);
  }

  datatype PollResult = PollFailed | Polled(ports: seq<Entry>, changed: bool)

  /** The ports of the last poll that reported a change. */
  function LastChanged(polls: seq<PollResult>): seq<Entry> {
    if polls == [] then []
    else
      var last := polls[|polls| - 1];
      if last.Polled? && last.changed then last.ports else LastChanged(polls[..|polls| - 1])
  }

  class Snapshotter {
    const hasPoller: bool
    var buffer: array<Entry>
    var length: nat
    ghost var polls: seq<PollResult>

    ghost predicate Valid()
      reads this, buffer
    {
      length <= buffer.Length && buffer[..length] == LastChanged(polls)
    }

    constructor (hasPoller: bool)
      ensures Valid() && this.hasPoller == hasPoller && polls == [] && fresh(buffer)
    {
      this.hasPoller := hasPoller;
      buffer := new Entry[0];
      length := 0;
      polls := [];
    }

    /** append(p.cached[:0], ports...): the old buffer is overwritten in place when it is large enough. */
    method Overwrite(ports: seq<Entry>)
      modifies this`buffer, this`length, buffer
      ensures length == |ports| <= buffer.Length && buffer[..length] == ports
      ensures buffer == old(buffer) || fresh(buffer)
    {
      if |ports| > buffer.Length {
        buffer := new Entry[|ports|](i requires 0 <= i < |ports| => ports[i]);
      } else {
        for i := 0 to |ports|
          invariant buffer == old(buffer) && |ports| <= buffer.Length && buffer[..i] == ports[..i]
          modifies buffer
        {
          buffer[i] := ports[i];
        }
      }
      length := |ports|;
      assert ports[..|ports|] == ports;
    }

    /** The ports are those of the last poll that reported a change, whatever failed in between. */
    method Poll(result: PollResult) returns (ports: Option<seq<Entry>>)
      requires Valid()
      modifies this`buffer, this`length, this`polls, buffer
      ensures Valid() && (buffer == old(buffer) || fresh(buffer))
      ensures polls == if hasPoller then old(polls) + [result] else old(polls)
      ensures ports == if !hasPoller then Some([]) else if result.PollFailed? then None else Some(LastChanged(polls))
    {
      if !hasPoller { return Some([]); }
      polls := polls + [result];
      assert polls[..|polls| - 1] == old(polls);
      if result.PollFailed? { return None; }
      if result.changed {
        Overwrite(result.ports);
      }
      ports := Some(buffer[..length]);
    }

    /**
     A snapshot is a new array, so no later poll or snapshot can alter it; the source's nil slice is null.
     `sockets` is None when procfs cannot be read.
     */
    method Snapshot(parse: Parser, sockets: Option<seq<Socket>>, result: PollResult)
      returns (r: array?<Port>, failed: bool)
      requires Valid()
      modifies this`buffer, this`length, this`polls, buffer
      ensures Valid() && (buffer == old(buffer) || fresh(buffer))
      ensures polls == if hasPoller && sockets.Some? then old(polls) + [result] else old(polls)
      ensures failed <==> sockets.None? || (hasPoller && result.PollFailed?)
      ensures failed ==> r == null
      ensures !failed ==> (r == null <==> !hasPoller || LastChanged(polls) == [])
      ensures r != null ==> fresh(r) && IsSnapshot(parse, sockets.value, LastChanged(polls), r[..])
    {
      r, failed := null, true;
      if sockets.None? { return; }
      var entries := Poll(result);
      if entries.None? { return; }
      failed := false;
      if entries.value == [] { return; }
      var built := BuildSnapshot(parse, entries.value, sockets.value);
      SnapshotOrderIsTotal();
      var sorted := Sort(SnapshotAtMost, built);
      r := new Port[|sorted|](i requires 0 <= i < |sorted| => sorted[i]);
      assert r[..] == sorted;
    }
  }
}
