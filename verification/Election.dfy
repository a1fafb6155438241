/** The bootstrap election: internal/admin/bootstrap.go. */
module Election {
  import opened Text
  import opened Order
  import opened Wrappers

  // ---------------------------------------------------------------- names

  function CleanChar(c: char): char {
    if 'a' <= c <= 'z' || '0' <= c <= '9' || c == '-' then c else '-'
  }

  function TrimDashesLeft(s: string): string {
    if s != "" && s[0] == '-' then TrimDashesLeft(s[1..]) else s
  }

  function TrimDashesRight(s: string): string {
    if s != "" && s[|s| - 1] == '-' then TrimDashesRight(s[..|s| - 1]) else s
  }

  function Cleaned(s: string): string {
    seq(|s|, i requires 0 <= i < |s| => CleanChar(s[i]))
  }

  /** The daemon's own host name for a tailnet host name. */
  function DaemonName(host: string): string {
    "tailkitd-" + TrimDashesRight(TrimDashesLeft(Cleaned(ToLower(host))))
  }

  /** daemonHostnameForTailnetPeer. */
  method DaemonHostname(host: string) returns (name: string)
    ensures name == DaemonName(host)
  {
    var lower := ToLower(host);
    var b := "";
    for i := 0 to |lower|
      invariant b == Cleaned(lower[..i])
    {
      assert Cleaned(lower[..i + 1]) == Cleaned(lower[..i]) + [CleanChar(lower[i])];
      var r := lower[i];
      if ('a' <= r && r <= 'z') || ('0' <= r && r <= '9') || r == '-' {
        b := b + [r];
      } else {
        b := b + ['-'];
      }
    }
    assert lower[..|lower|] == lower;
    name := "tailkitd-" + TrimDashesRight(TrimDashesLeft(b));
  }

  lemma {:induction false} DashesTrimmedLeft(s: string) returns (a: nat)
    ensures a <= |s| && TrimDashesLeft(s) == s[a..] && (a < |s| ==> s[a] != '-')
    ensures forall i :: 0 <= i < a ==> s[i] == '-'
  {
    a := 0;
    if s != "" && s[0] == '-' {
      a := DashesTrimmedLeft(s[1..]);
      a := a + 1;
      assert s[a..] == s[1..][a - 1..];
      assert forall i :: 1 <= i < |s| ==> s[i] == s[1..][i - 1];
    }
  }

  lemma {:induction false} DashesTrimmedRight(s: string) returns (b: nat)
    ensures b <= |s| && TrimDashesRight(s) == s[..b] && (b > 0 ==> s[b - 1] != '-')
    ensures forall i :: b <= i < |s| ==> s[i] == '-'
  {
    b := |s|;
    if s != "" && s[|s| - 1] == '-' {
      b := DashesTrimmedRight(s[..|s| - 1]);
      assert s[..b] == s[..|s| - 1][..b];
    } else {
      assert s[..|s|] == s;
    }
  }

  /** A character of a host name as the daemon name has it: digits and small letters, small for capital, or a dash. */
  predicate NamesChar(host: char, name: char) {
    var h, n := host as int, name as int;
    if 48 <= h <= 57 || 97 <= h <= 122 then n == h
    else if 65 <= h <= 90 then n == h + 32
    else name == '-'
  }

  /**
   The daemon name is the prefix and, character by character, the host name, with everything left out at
   both ends that comes to a dash.
   */
  lemma DaemonNameIs(host: string) returns (a: nat, b: nat)
    ensures a <= b <= |host| && |DaemonName(host)| == 9 + (b - a) && DaemonName(host)[..9] == "tailkitd-"
    ensures forall i :: a <= i < b ==> NamesChar(host[i], DaemonName(host)[9 + (i - a)])
    ensures forall i :: 0 <= i < a || b <= i < |host| ==> NamesChar(host[i], '-')
    ensures a < b ==> DaemonName(host)[9] != '-' && DaemonName(host)[8 + (b - a)] != '-'
  {
    var cleaned := Cleaned(ToLower(host));
    CleanedIs(host);
    a, b := DashesTrimmed(cleaned);
    AfterPrefix("tailkitd-", cleaned[a..b]);
  }

  lemma CleanedIs(host: string)
    ensures |Cleaned(ToLower(host))| == |host|
    ensures forall i :: 0 <= i < |host| ==> NamesChar(host[i], Cleaned(ToLower(host))[i])
  {
  }

  lemma DashesTrimmed(s: string) returns (a: nat, b: nat)
    ensures a <= b <= |s| && TrimDashesRight(TrimDashesLeft(s)) == s[a..b]
    ensures forall i :: 0 <= i < a || b <= i < |s| ==> s[i] == '-'
    ensures a < b ==> s[a] != '-' && s[b - 1] != '-'
  {
    a := DashesTrimmedLeft(s);
    var n := DashesTrimmedRight(s[a..]);
    b := a + n;
    assert s[a..][..n] == s[a..b];
    assert forall i :: a <= i < |s| ==> s[i] == s[a..][i - a];
  }

  lemma AfterPrefix(p: string, core: string)
    ensures (p + core)[..|p|] == p && forall i :: 0 <= i < |core| ==> (p + core)[|p| + i] == core[i]
  {
  }

  /** A peer of the tailnet status that belongs to the fleet and is not the node itself; None is a nil entry. */
  predicate IsFleetPeer(peer: Option<string>, self: string, defined: seq<string>) {
    peer.Some? && peer.value != "" && peer.value != self && peer.value in defined
  }

  function FleetPeers(peers: seq<Option<string>>, self: string, defined: seq<string>): seq<string> {
    if peers == [] then []
    else FleetPeers(peers[..|peers| - 1], self, defined)
         + (var p := peers[|peers| - 1]; if IsFleetPeer(p, self, defined) then [DaemonName(p.value)] else [])
  }

  /** PeerHostnames: the daemon names of the fleet's other nodes, sorted. A nil status has no peers. */
  method PeerHostnames(status: Option<seq<Option<string>>>, self: string, defined: seq<string>)
    returns (hosts: seq<string>)
    ensures status.None? ==> hosts == []
    ensures status.Some? ==> SortedBy(AtMost, hosts)
    ensures status.Some? ==> multiset(hosts) == multiset(FleetPeers(status.value, self, defined))
  {
    if status.None? { return []; }
    var peers := status.value;
    hosts := [];
    for i := 0 to |peers|
      invariant hosts == FleetPeers(peers[..i], self, defined)
    {
      assert peers[..i + 1][..i] == peers[..i];
      var peer := peers[i];
      if peer.None? || peer.value == "" || peer.value == self { continue; }
      if peer.value !in defined { continue; }
      var name := DaemonHostname(peer.value);
      hosts := hosts + [name];
    }
    assert peers[..|peers|] == peers;
    AtMostIsTotalOrder();
    hosts := Sort(AtMost, hosts);
  }

  lemma {:induction false} FleetPeersMembers(peers: seq<Option<string>>, self: string, defined: seq<string>,
                                             name: string)
    ensures name in FleetPeers(peers, self, defined) <==>
              exists host :: Some(host) in peers && host != "" && host != self && host in defined
                             && DaemonName(host) == name
  {
    if peers != [] {
      var m := |peers| - 1;
      FleetPeersMembers(peers[..m], self, defined, name);
      assert forall p :: p in peers <==> p in peers[..m] || p == peers[m];
    }
  }

  // ---------------------------------------------------------------- the decision

  /** A probe of a peer: an error, or its answer. */
  datatype Probe = ProbeError | Answer(isAdmin: bool)

  /** The rule: alone, or no probed peer is admin and no peer's name is smaller. */
  ghost predicate Elected(self: string, peers: seq<string>, probe: string -> Probe) {
    || peers == []
    || ((forall p :: p in peers ==> probe(p) != Answer(true)) && forall p :: p in peers ==> AtMost(self, p))
  }

  /** The head of the sorted candidates is the node itself exactly when no peer's name is smaller. */
  method SortsFirst(self: string, peers: seq<string>) returns (first: bool)
    ensures first <==> forall p :: p in peers ==> AtMost(self, p)
  {
    AtMostIsTotalOrder();
    var all := Sort(AtMost, [self] + peers);
    PermutationMembers(all, [self] + peers);
    first := all[0] == self;
    assert self in [self] + peers && forall p :: p in peers ==> p in [self] + peers;
    HeadIsLeast(all);
    assert all[0] in [self] + peers;
    if !first {
      LessTotal(all[0], self);
      assert Less(all[0], self) && all[0] in peers;
    }
  }

  lemma HeadIsLeast(all: seq<string>)
    requires SortedBy(AtMost, all) && all != []
    ensures forall x :: x in all ==> AtMost(all[0], x)
  {
    LessAsymmetric(all[0], all[0]);
  }

  method DetermineIsAdmin(self: string, peers: seq<string>, probe: string -> Probe) returns (isAdmin: bool)
    ensures isAdmin <==> Elected(self, peers, probe)
  {
    if |peers| == 0 { return true; }
    for i := 0 to |peers|
      invariant forall p :: p in peers[..i] ==> probe(p) != Answer(true)
    {
      assert peers[..i + 1] == peers[..i] + [peers[i]];
      var answer := probe(peers[i]);
      if answer.ProbeError? { continue; }
      if answer.isAdmin {
        assert peers[i] in peers;
        return false;
      }
    }
    assert peers[..|peers|] == peers;
    isAdmin := SortsFirst(self, peers);
  }

  /** admin.State. */
  class State {
    var isAdmin: bool

    constructor ()
      ensures !isAdmin
    {
      isAdmin := false;
    }

    method SetAdmin(v: bool)
      modifies this
      ensures isAdmin == v
    {
      isAdmin := v;
    }
  }

  /** BootstrapState, whose inline loop decides as DetermineIsAdmin does; null when the admin files cannot be made. */
  method BootstrapState(filesFail: bool, self: string, selfTailnet: string, status: Option<seq<Option<string>>>,
                        defined: seq<string>, probe: string -> Probe)
    returns (r: State?)
    ensures r == null <==> filesFail
    ensures r != null ==> fresh(r)
    ensures r != null && status.None? ==> r.isAdmin
    ensures r != null && status.Some? ==>
              (r.isAdmin <==> Elected(self, FleetPeers(status.value, selfTailnet, defined), probe))
  {
    if filesFail { return null; }
    var peers := PeerHostnames(status, selfTailnet, defined);
    ghost var given := if status.Some? then FleetPeers(status.value, selfTailnet, defined) else [];
    PermutationMembers(peers, given);
    var state := new State();
    var isAdmin := true;
    if |peers| != 0 {
      var foundRemoteAdmin := false;
      for i := 0 to |peers|
        invariant !foundRemoteAdmin && isAdmin && forall p :: p in peers[..i] ==> probe(p) != Answer(true)
      {
        assert peers[..i + 1] == peers[..i] + [peers[i]];
        var answer := probe(peers[i]);
        if answer.ProbeError? { continue; }
        if answer.isAdmin {
          foundRemoteAdmin, isAdmin := true, false;
          assert peers[i] in peers;
          break;
        }
      }
      if !foundRemoteAdmin {
        assert peers[..|peers|] == peers;
        isAdmin := SortsFirst(self, peers);
      }
    }
    state.SetAdmin(isAdmin);
    r := state;
  }

  // ---------------------------------------------------------------- the fleet

  /**
   A node: its tailnet name, the name it goes by itself, what its status and host file show it, and how its
   probes turn out.
   */
  datatype Node = Node(host: string, self: string, peers: seq<Option<string>>, defined: seq<string>,
                       probe: string -> Probe)

  function PeersOf(n: Node): seq<string> { FleetPeers(n.peers, n.host, n.defined) }

  ghost predicate Elects(n: Node) { Elected(n.self, PeersOf(n), n.probe) }

  /** `a` lists `b` as a peer. */
  predicate Lists(a: Node, b: Node) {
    Some(b.host) in a.peers && IsFleetPeer(Some(b.host), a.host, a.defined)
  }

  /** The node goes by the name its peers derive for it, as it does unless TAILKITD_HOSTNAME overrides it. */
  predicate GoesByItsName(n: Node) { n.self == DaemonName(n.host) }

  lemma ListedIsPeer(a: Node, b: Node)
    requires Lists(a, b)
    ensures DaemonName(b.host) in PeersOf(a)
  {
    FleetPeersMembers(a.peers, a.host, a.defined, DaemonName(b.host));
  }

  /** Two nodes that list each other and both elect themselves have one daemon name. */
  lemma BothElectedShareName(a: Node, b: Node)
    requires Lists(a, b) && Lists(b, a) && GoesByItsName(a) && GoesByItsName(b)
    requires Elects(a) && Elects(b)
    ensures a.self == b.self
  {
    ListedIsPeer(a, b);
    ListedIsPeer(b, a);
    LessTotal(a.self, b.self);
  }

  /**
   Election safety: among nodes that list each other and go by distinct daemon names, at most one elects
   itself, whatever the probes return.
   */
  lemma AtMostOneElected(nodes: seq<Node>, i: nat, j: nat)
    requires forall x :: 0 <= x < |nodes| ==> GoesByItsName(nodes[x])
    requires forall x, y :: 0 <= x < |nodes| && 0 <= y < |nodes| && x != y ==>
               Lists(nodes[x], nodes[y]) && nodes[x].self != nodes[y].self
    requires i < j < |nodes|
    ensures !(Elects(nodes[i]) && Elects(nodes[j]))
  {
    assert Lists(nodes[i], nodes[j]) && Lists(nodes[j], nodes[i]);
    if Elects(nodes[i]) && Elects(nodes[j]) {
      BothElectedShareName(nodes[i], nodes[j]);
    }
  }

  /** The node's view is complete: its peers are exactly the other nodes. */
  ghost predicate SeesAll(nodes: seq<Node>, i: nat)
    requires i < |nodes|
  {
    forall name :: name in PeersOf(nodes[i]) <==>
      exists j :: 0 <= j < |nodes| && j != i && DaemonName(nodes[j].host) == name
  }

  /**
   The rule over a fleet, whatever the probes answer: with a complete view a node elects itself exactly if no
   other node answers that it is admin and none has a smaller daemon name.
   */
  lemma ElectsIff(nodes: seq<Node>, i: nat)
    requires i < |nodes| && SeesAll(nodes, i)
    ensures Elects(nodes[i]) <==>
              forall j :: 0 <= j < |nodes| && j != i ==>
                && nodes[i].probe(DaemonName(nodes[j].host)) != Answer(true)
                && AtMost(nodes[i].self, DaemonName(nodes[j].host))
  {
    var n := nodes[i];
    forall j | 0 <= j < |nodes| && j != i ensures DaemonName(nodes[j].host) in PeersOf(n) {
    }
    forall p | p in PeersOf(n) ensures exists j :: 0 <= j < |nodes| && j != i && DaemonName(nodes[j].host) == p {
    }
  }

  /** No peer answers that it is admin. */
  ghost predicate NoAdminAnswers(n: Node) { forall p :: p in PeersOf(n) ==> n.probe(p) != Answer(true) }

  /** No other node's daemon name is smaller than what this node goes by. */
  ghost predicate NotUndercut(nodes: seq<Node>, i: nat)
    requires i < |nodes|
  {
    forall j :: 0 <= j < |nodes| && j != i ==> AtMost(nodes[i].self, DaemonName(nodes[j].host))
  }

  /** With complete views and no admin answering, a node is elected exactly if no other's name is smaller. */
  lemma ElectedIffNotUndercut(nodes: seq<Node>, i: nat)
    requires i < |nodes| && SeesAll(nodes, i) && NoAdminAnswers(nodes[i])
    ensures Elects(nodes[i]) <==> NotUndercut(nodes, i)
  {
    if Elects(nodes[i]) {
      forall j | 0 <= j < |nodes| && j != i ensures AtMost(nodes[i].self, DaemonName(nodes[j].host)) {
        assert DaemonName(nodes[j].host) in PeersOf(nodes[i]);
      }
    }
    if NotUndercut(nodes, i) {
      forall p | p in PeersOf(nodes[i]) ensures AtMost(nodes[i].self, p) {
        var j :| 0 <= j < |nodes| && j != i && DaemonName(nodes[j].host) == p;
      }
    }
  }

  /** This is the least daemon name of the fleet. */
  ghost predicate IsLeast(nodes: seq<Node>, name: string) {
    forall j :: 0 <= j < |nodes| ==> AtMost(name, DaemonName(nodes[j].host))
  }

  /** With complete views and no admin answering, exactly the smallest name is elected. */
  lemma LeastIsElected(nodes: seq<Node>, i: nat)
    requires i < |nodes| && SeesAll(nodes, i) && GoesByItsName(nodes[i]) && NoAdminAnswers(nodes[i])
    ensures Elects(nodes[i]) <==> IsLeast(nodes, nodes[i].self)
  {
    ElectedIffNotUndercut(nodes, i);
    LessAsymmetric(nodes[i].self, nodes[i].self);
  }

  /**
   Exactly when two nodes of any fleet both elect themselves, with complete views and no admin answering: when
   neither is undercut by any other node; going by their own names, when both hold the fleet's least daemon
   name.
   */
  lemma BothElectedIff(nodes: seq<Node>, i: nat, j: nat)
    requires i < |nodes| && j < |nodes| && i != j && SeesAll(nodes, i) && SeesAll(nodes, j)
    requires NoAdminAnswers(nodes[i]) && NoAdminAnswers(nodes[j])
    ensures Elects(nodes[i]) && Elects(nodes[j]) <==> NotUndercut(nodes, i) && NotUndercut(nodes, j)
    ensures GoesByItsName(nodes[i]) && GoesByItsName(nodes[j]) ==>
              (Elects(nodes[i]) && Elects(nodes[j])
               <==> nodes[i].self == nodes[j].self && IsLeast(nodes, nodes[i].self))
  {
    ElectedIffNotUndercut(nodes, i);
    ElectedIffNotUndercut(nodes, j);
    if GoesByItsName(nodes[i]) && GoesByItsName(nodes[j]) {
      LeastIsElected(nodes, i);
      LeastIsElected(nodes, j);
      LessTotal(nodes[i].self, nodes[j].self);
    }
  }

  lemma OnePeer(n: Node, other: string)
    requires n.peers == [Some(other)] && other != "" && other != n.host && other in n.defined
    requires n.probe(DaemonName(other)) != Answer(true)
    ensures Elects(n) <==> AtMost(n.self, DaemonName(other))
  {
    assert n.peers[..0] == [];
    assert FleetPeers(n.peers[..0], n.host, n.defined) == [];
    assert PeersOf(n) == [DaemonName(other)];
    assert DaemonName(other) in PeersOf(n);
  }

  /**
   When two nodes that see only each other, with no admin answering, both elect themselves: exactly when
   neither is smaller than itself as the other knows it. Going by their own names, that is exactly when
   the two daemon names coincide.
   */
  lemma PairBothElectedIff(a: Node, b: Node)
    requires a.host != b.host && a.host != "" && b.host != ""
    requires a.peers == [Some(b.host)] && b.peers == [Some(a.host)] && b.host in a.defined && a.host in b.defined
    requires a.probe(DaemonName(b.host)) != Answer(true) && b.probe(DaemonName(a.host)) != Answer(true)
    ensures Elects(a) && Elects(b) <==> AtMost(a.self, DaemonName(b.host)) && AtMost(b.self, DaemonName(a.host))
    ensures GoesByItsName(a) && GoesByItsName(b) ==> (Elects(a) && Elects(b) <==> a.self == b.self)
  {
    OnePeer(a, b.host);
    OnePeer(b, a.host);
    LessTotal(a.self, b.self);
    LessAsymmetric(a.self, a.self);
  }

  /** Sanitizing can make two names one. */
  lemma SanitizedNamesCollide()
    ensures "db_1" != "db.1" && DaemonName("db_1") == DaemonName("db.1")
  {
    var a, b := "db_1", "db.1";
    assert a[2] != b[2];
    assert Cleaned(ToLower(a)) == "db-1";
    assert Cleaned(ToLower(b)) == "db-1";
  }

  /** An overridden name can elect two nodes under distinct names. */
  lemma OverriddenNameElectsTwo(probe: string -> Probe)
    requires forall p :: probe(p) == Answer(false)
    ensures var a := Node("a", DaemonName("a"), [Some("b")], ["a", "b"], probe);
            var b := Node("b", "backup", [Some("a")], ["a", "b"], probe);
            Elects(a) && Elects(b) && a.self != b.self
  {
    var a := Node("a", DaemonName("a"), [Some("b")], ["a", "b"], probe);
    var b := Node("b", "backup", [Some("a")], ["a", "b"], probe);
    assert "a"[0] != "b"[0];
    assert Cleaned(ToLower("a")) == "a" && Cleaned(ToLower("b")) == "b";
    assert DaemonName("a") == "tailkitd-" + "a" && DaemonName("b") == "tailkitd-" + "b";
    LessSharedPrefix("tailkitd-", "b", "a");
    assert "backup"[0] == 'b' && DaemonName("a")[0] == 't';
    PairBothElectedIff(a, b);
  }
}
