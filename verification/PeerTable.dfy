/** Static peer configuration: `lib/iroh_beam/distribution/config.ex`. */
module PeerTable {
  import opened Bytes
  import opened Options
  import opened Sums

  /** A node atom, by its UTF-8 text; distinct atoms have distinct texts. */
  type Node = Binary

  /** An endpoint id, by its canonical text. */
  type Id = Binary

  const AT: Byte := 64

  // ----- node names

  /** The first position of `@`, or the length of the text. */
  function FirstAt(text: Binary): (k: nat)
    ensures k <= |text|
    ensures k < |text| ==> text[k] == AT
    ensures forall i | 0 <= i < k :: text[i] != AT
  {
    if text == [] || text[0] == AT then 0 else 1 + FirstAt(text[1..])
  }

  /** `String.split(text, "@", parts: n)`. */
  function Split(text: Binary, parts: nat): (segments: seq<Binary>)
    requires parts > 0
    ensures segments != []
    decreases parts
  {
    var k := FirstAt(text);
    if parts == 1 || k == |text| then [text] else [text[..k]] + Split(text[k + 1..], parts - 1)
  }

  function ValidNode(text: Binary): bool {
    var segments := Split(text, 3);
    |segments| == 2 && segments[0] != [] && segments[1] != []
  }

  /** A name is accepted exactly when it has one `@`, neither first nor last. */
  lemma ValidNodeIffOneInnerAt(text: Binary)
    ensures ValidNode(text) <==>
            exists k | 0 < k < |text| - 1 ::
              text[k] == AT && forall i | 0 <= i < |text| && i != k :: text[i] != AT
  {
    var k := FirstAt(text);
    if k < |text| {
      var host := text[k + 1..];
      var j := FirstAt(host);
      assert Split(text, 3) == [text[..k]] + Split(host, 2);
      assert |Split(host, 2)| == 1 <==> j == |host|;
      if j < |host| {
        assert text[k + 1 + j] == AT;
      } else {
        forall i | 0 <= i < |text| && i != k
          ensures text[i] != AT
        {
          if i > k {
            assert text[i] == host[i - k - 1];
          }
        }
      }
    }
  }

  // ----- targets

  /** The accepted forms of a peer target, with what the library's parsers make of it. */
  datatype Target =
    | IdStruct(id: Id)
    | AddrStruct(id: Id)
    | TicketStruct(id: Id)
    | IdText(parsed: Option<Id>)
    | TicketText(parsed: Option<Id>)
    | AddrValue(parsed: Option<Id>, addressesValid: bool)
    | Unsupported

  datatype Resolved = EndpointId(id: Id) | EndpointAddr(id: Id) | EndpointTicket(id: Id)

  datatype Peer = Peer(target: Resolved, id: Id)

  function NormalizeTarget(target: Target): Option<Peer> {
    match target
    case IdStruct(id) => Some(Peer(EndpointId(id), id))
    case AddrStruct(id) => Some(Peer(EndpointAddr(id), id))
    case TicketStruct(id) => Some(Peer(EndpointTicket(id), id))
    case IdText(Some(id)) => Some(Peer(EndpointId(id), id))
    case TicketText(Some(id)) => Some(Peer(EndpointTicket(id), id))
    case AddrValue(Some(id), true) => Some(Peer(EndpointAddr(id), id))
    case _ => None
  }

  /** The endpoint id a target names, if its text or value parses. */
  function TargetId(target: Target): Option<Id> {
    match target
    case IdStruct(id) => Some(id)
    case AddrStruct(id) => Some(id)
    case TicketStruct(id) => Some(id)
    case IdText(parsed) => parsed
    case TicketText(parsed) => parsed
    case AddrValue(parsed, addressesValid) => if addressesValid then parsed else None
    case Unsupported => None
  }

  /** A target is accepted exactly when it names an id, as that id, in the form it was
      written in. */
  lemma TargetNormalizes(target: Target)
    ensures var peer := NormalizeTarget(target);
            && (peer.Some? <==> TargetId(target).Some?)
            && (peer.Some? ==>
                  && Some(peer.value.id) == TargetId(target) && peer.value.target.id == peer.value.id
                  && (peer.value.target.EndpointId? <==> target.IdStruct? || target.IdText?)
                  && (peer.value.target.EndpointAddr? <==> target.AddrStruct? || target.AddrValue?)
                  && (peer.value.target.EndpointTicket? <==> target.TicketStruct? || target.TicketText?))
  {
  }

  // ----- the fold

  datatype Rejection = InvalidNode | Conflict | InvalidTarget

  datatype Table = Table(byNode: map<Node, Peer>, byId: map<Id, Node>) | Rejected(why: Rejection)

  /** `normalize_peers`: the entries in the order the runtime enumerates the map. */
  function NormalizePeers(entries: seq<(Node, Target)>, local: Node): Table {
    Fold(entries, local, map[], map[])
  }

  function Fold(entries: seq<(Node, Target)>, local: Node, byNode: map<Node, Peer>, byId: map<Id, Node>): Table {
    if entries == [] then Table(byNode, byId)
    else
      var (node, target) := entries[0];
      if !ValidNode(node) then Rejected(InvalidNode)
      else if node == local then Rejected(Conflict)
      else
        match NormalizeTarget(target)
        case None => Rejected(InvalidTarget)
        case Some(peer) =>
          if peer.id in byId then Rejected(Conflict)
          else Fold(entries[1..], local, byNode[node := peer], byId[peer.id := node])
  }

  // ----- what it accepts, said of the map alone

  ghost predicate EntryFits(node: Node, target: Target, local: Node) {
    ValidNode(node) && node != local && NormalizeTarget(target).Some?
  }

  ghost function IdOf(target: Target): Id {
    match NormalizeTarget(target) case Some(peer) => peer.id case None => []
  }

  /** Every peer fits and no two share an endpoint id. */
  ghost predicate Acceptable(peers: map<Node, Target>, local: Node) {
    && (forall n <- peers :: EntryFits(n, peers[n], local))
    && (forall n <- peers, m <- peers | n != m :: IdOf(peers[n]) != IdOf(peers[m]))
  }

  /** `entries` lists each pair of `peers` once, in some order. */
  ghost predicate Enumerates(entries: seq<(Node, Target)>, peers: map<Node, Target>) {
    && (forall e <- entries :: e.0 in peers && e.1 == peers[e.0])
    && (forall i, j | 0 <= i < j < |entries| :: entries[i].0 != entries[j].0)
    && (forall n <- peers :: (n, peers[n]) in entries)
  }

  ghost predicate MutuallyInverse(byNode: map<Node, Peer>, byId: map<Id, Node>) {
    && (forall n <- byNode :: byNode[n].id in byId && byId[byNode[n].id] == n)
    && (forall id <- byId :: byId[id] in byNode && byNode[byId[id]].id == id)
  }

  ghost function Peers(peers: map<Node, Target>): map<Node, Peer>
    requires forall n <- peers :: NormalizeTarget(peers[n]).Some?
  {
    map n | n in peers :: NormalizeTarget(peers[n]).value
  }

  // The fold, from any partial tables.

  /** Every entry fits, with an id that nobody has taken. */
  ghost predicate ListFits(entries: seq<(Node, Target)>, local: Node, taken: set<Id>) {
    && (forall e <- entries :: EntryFits(e.0, e.1, local) && IdOf(e.1) !in taken)
    && (forall i, j | 0 <= i < j < |entries| :: IdOf(entries[i].1) != IdOf(entries[j].1))
  }

  lemma ListFitsDown(first: (Node, Target), tail: seq<(Node, Target)>, local: Node, taken: set<Id>)
    requires ListFits([first] + tail, local, taken)
    ensures EntryFits(first.0, first.1, local) && IdOf(first.1) !in taken
    ensures ListFits(tail, local, taken + {IdOf(first.1)})
  {
    var entries := [first] + tail;
    assert entries[0] == first && first in entries;
    forall e <- tail
      ensures EntryFits(e.0, e.1, local) && IdOf(e.1) !in taken + {IdOf(first.1)}
    {
      var j :| 0 <= j < |tail| && tail[j] == e;
      assert entries[j + 1] == e && e in entries;
    }
    forall i, j | 0 <= i < j < |tail|
      ensures IdOf(tail[i].1) != IdOf(tail[j].1)
    {
      assert tail[i] == entries[i + 1] && tail[j] == entries[j + 1];
    }
  }

  lemma ListFitsUp(first: (Node, Target), tail: seq<(Node, Target)>, local: Node, taken: set<Id>)
    requires EntryFits(first.0, first.1, local) && IdOf(first.1) !in taken
    requires ListFits(tail, local, taken + {IdOf(first.1)})
    ensures ListFits([first] + tail, local, taken)
  {
    var entries := [first] + tail;
    forall i, j | 0 <= i < j < |entries|
      ensures IdOf(entries[i].1) != IdOf(entries[j].1)
    {
      assert entries[j] == tail[j - 1] && tail[j - 1] in tail;
      if i > 0 {
        assert entries[i] == tail[i - 1];
      }
    }
  }

  lemma {:induction false} FoldIff(entries: seq<(Node, Target)>, local: Node,
                                   byNode: map<Node, Peer>, byId: map<Id, Node>)
    ensures Fold(entries, local, byNode, byId).Table? <==> ListFits(entries, local, byId.Keys)
  {
    if entries != [] {
      var (node, target) := entries[0];
      assert entries == [entries[0]] + entries[1..];
      if ListFits(entries, local, byId.Keys) {
        ListFitsDown(entries[0], entries[1..], local, byId.Keys);
      }
      if EntryFits(node, target, local) && IdOf(target) !in byId {
        var peer := NormalizeTarget(target).value;
        FoldIff(entries[1..], local, byNode[node := peer], byId[peer.id := node]);
        assert byId[peer.id := node].Keys == byId.Keys + {peer.id};
        if ListFits(entries[1..], local, byId.Keys + {peer.id}) {
          ListFitsUp(entries[0], entries[1..], local, byId.Keys);
        }
      }
    }
  }

  lemma InverseGrows(byNode: map<Node, Peer>, byId: map<Id, Node>, node: Node, peer: Peer)
    requires MutuallyInverse(byNode, byId) && node !in byNode && peer.id !in byId
    ensures MutuallyInverse(byNode[node := peer], byId[peer.id := node])
  {
  }

  lemma {:induction false} FoldInverse(entries: seq<(Node, Target)>, local: Node,
                                       byNode: map<Node, Peer>, byId: map<Id, Node>)
    requires Fold(entries, local, byNode, byId).Table?
    requires forall e <- entries :: e.0 !in byNode
    requires forall i, j | 0 <= i < j < |entries| :: entries[i].0 != entries[j].0
    requires MutuallyInverse(byNode, byId)
    ensures var r := Fold(entries, local, byNode, byId); MutuallyInverse(r.byNode, r.byId)
  {
    if entries != [] {
      var (node, target) := entries[0];
      var peer := NormalizeTarget(target).value;
      InverseGrows(byNode, byId, node, peer);
      FoldInverse(entries[1..], local, byNode[node := peer], byId[peer.id := node]);
    }
  }

  lemma {:induction false} FoldKeeps(entries: seq<(Node, Target)>, local: Node,
                                     byNode: map<Node, Peer>, byId: map<Id, Node>)
    requires Fold(entries, local, byNode, byId).Table? && forall e <- entries :: e.0 !in byNode
    requires forall i, j | 0 <= i < j < |entries| :: entries[i].0 != entries[j].0
    ensures var r := Fold(entries, local, byNode, byId).byNode;
            && (forall n <- byNode :: n in r && r[n] == byNode[n])
            && (forall k | 0 <= k < |entries| ::
                  entries[k].0 in r && Some(r[entries[k].0]) == NormalizeTarget(entries[k].1))
  {
    if entries != [] {
      var (node, target) := entries[0];
      var tail := entries[1..];
      var peer := NormalizeTarget(target).value;
      FoldKeeps(tail, local, byNode[node := peer], byId[peer.id := node]);
      forall k | 0 <= k < |entries|
        ensures var r := Fold(entries, local, byNode, byId).byNode;
                entries[k].0 in r && Some(r[entries[k].0]) == NormalizeTarget(entries[k].1)
      {
        if k > 0 {
          assert entries[k] == tail[k - 1];
        }
      }
    }
  }

  lemma {:induction false} FoldAddsNoOther(entries: seq<(Node, Target)>, local: Node,
                                           byNode: map<Node, Peer>, byId: map<Id, Node>, n: Node)
    requires var r := Fold(entries, local, byNode, byId); r.Table? && n in r.byNode
    ensures n in byNode || exists e <- entries :: e.0 == n
  {
    if entries != [] {
      var (node, target) := entries[0];
      var peer := NormalizeTarget(target).value;
      FoldAddsNoOther(entries[1..], local, byNode[node := peer], byId[peer.id := node], n);
      if n == node {
        assert entries[0] in entries;
      }
    }
  }

  /** `normalize_peers` succeeds exactly on acceptable maps; then the two tables are what
      the map says, and each is the inverse of the other. */
  lemma NormalizeSucceedsIffAcceptable(entries: seq<(Node, Target)>, peers: map<Node, Target>, local: Node)
    requires Enumerates(entries, peers)
    ensures NormalizePeers(entries, local).Table? <==> Acceptable(peers, local)
    ensures var r := NormalizePeers(entries, local);
            r.Table? ==> r.byNode == Peers(peers) && MutuallyInverse(r.byNode, r.byId)
  {
    var r := NormalizePeers(entries, local);
    var noPeers: map<Node, Peer>, noIds: map<Id, Node> := map[], map[];
    assert r == Fold(entries, local, noPeers, noIds);
    FoldIff(entries, local, noPeers, noIds);
    AcceptableInOrder(entries, peers, local);
    if r.Table? {
      FoldInverse(entries, local, noPeers, noIds);
      FoldKeeps(entries, local, noPeers, noIds);
      forall n <- r.byNode ensures exists e <- entries :: e.0 == n {
        FoldAddsNoOther(entries, local, noPeers, noIds, n);
      }
      ListingDeterminesTable(entries, peers, r.byNode);
    }
  }

  lemma ListingDeterminesTable(entries: seq<(Node, Target)>, peers: map<Node, Target>, byNode: map<Node, Peer>)
    requires Enumerates(entries, peers)
    requires forall e <- entries :: e.0 in byNode && Some(byNode[e.0]) == NormalizeTarget(e.1)
    requires forall n <- byNode :: exists e <- entries :: e.0 == n
    ensures (forall n <- peers :: NormalizeTarget(peers[n]).Some?) && byNode == Peers(peers)
  {
    forall n <- peers
      ensures n in byNode && Some(byNode[n]) == NormalizeTarget(peers[n])
    {
      var e := (n, peers[n]);
      assert e in entries;
    }
    assert byNode.Keys == peers.Keys;
  }

  /** Acceptability, read off a listing of the map. */
  lemma AcceptableInOrder(entries: seq<(Node, Target)>, peers: map<Node, Target>, local: Node)
    requires Enumerates(entries, peers)
    ensures Acceptable(peers, local) <==> ListFits(entries, local, {})
  {
    if Acceptable(peers, local) {
      forall i, j | 0 <= i < j < |entries|
        ensures IdOf(entries[i].1) != IdOf(entries[j].1)
      {
        assert entries[i] in entries && entries[j] in entries;
      }
    }
    if ListFits(entries, local, {}) {
      forall n <- peers, m <- peers | n != m
        ensures IdOf(peers[n]) != IdOf(peers[m])
      {
        var i :| 0 <= i < |entries| && entries[i] == (n, peers[n]);
        var j :| 0 <= j < |entries| && entries[j] == (m, peers[m]);
      }
      assert forall n <- peers :: EntryFits((n, peers[n]).0, (n, peers[n]).1, local);
    }
  }

  /** An inverse is determined by what it inverts. */
  lemma InverseUnique(byNode: map<Node, Peer>, a: map<Id, Node>, b: map<Id, Node>)
    requires MutuallyInverse(byNode, a) && MutuallyInverse(byNode, b)
    ensures a == b
  {
    assert forall id <- a :: id in b && b[id] == a[id] by {
      forall id <- a ensures id in b && b[id] == a[id] { assert byNode[a[id]].id == id; }
    }
    assert forall id <- b :: id in a by {
      forall id <- b ensures id in a { assert byNode[b[id]].id == id; }
    }
  }

  /** Neither success nor the tables depend on the order of enumeration. */
  lemma OrderIndependent(a: seq<(Node, Target)>, b: seq<(Node, Target)>, peers: map<Node, Target>, local: Node)
    requires Enumerates(a, peers) && Enumerates(b, peers)
    ensures NormalizePeers(a, local).Table? <==> NormalizePeers(b, local).Table?
    ensures NormalizePeers(a, local).Table? ==> NormalizePeers(a, local) == NormalizePeers(b, local)
  {
    NormalizeSucceedsIffAcceptable(a, peers, local);
    NormalizeSucceedsIffAcceptable(b, peers, local);
    if NormalizePeers(a, local).Table? {
      InverseUnique(Peers(peers), NormalizePeers(a, local).byId, NormalizePeers(b, local).byId);
    }
  }

  /** Which error is reported does depend on it. */
  lemma ErrorDependsOnOrder(local: Node, id: Id)
    requires ValidNode(local)
    ensures var entries := [(local, IdStruct(id)), ([], IdStruct(id))];
            && NormalizePeers(entries, local) == Rejected(Conflict)
            && NormalizePeers([entries[1], entries[0]], local) == Rejected(InvalidNode)
  {
    assert FirstAt([]) == 0;
    assert !ValidNode([]);
  }

  // ----- which error is reported

  ghost predicate Clash(peers: map<Node, Target>, local: Node, n: Node, m: Node)
    requires n in peers && m in peers
  {
    && n != m && EntryFits(n, peers[n], local) && EntryFits(m, peers[m], local)
    && IdOf(peers[n]) == IdOf(peers[m])
  }

  /** What can be wrong with a map of peers, by the error that names it. */
  ghost predicate Fault(peers: map<Node, Target>, local: Node, why: Rejection) {
    match why
    case InvalidNode => exists n <- peers :: !ValidNode(n)
    case InvalidTarget => exists n <- peers :: ValidNode(n) && n != local && NormalizeTarget(peers[n]).None?
    case Conflict => (local in peers && ValidNode(local)) || exists n <- peers, m <- peers :: Clash(peers, local, n, m)
  }

  /** The entry at which the fold halts, and why. */
  ghost predicate HaltsAt(entries: seq<(Node, Target)>, i: nat, local: Node, byId: map<Id, Node>, why: Rejection)
    requires i < |entries|
  {
    var (node, target) := entries[i];
    match why
    case InvalidNode => !ValidNode(node)
    case InvalidTarget => ValidNode(node) && node != local && NormalizeTarget(target).None?
    case Conflict =>
      || (ValidNode(node) && node == local)
      || (EntryFits(node, target, local)
          && (IdOf(target) in byId || exists j :: 0 <= j < i && EntryFits(entries[j].0, entries[j].1, local)
                                                  && IdOf(entries[j].1) == IdOf(target)))
  }

  lemma {:induction false} FoldHalts(entries: seq<(Node, Target)>, local: Node,
                                     byNode: map<Node, Peer>, byId: map<Id, Node>) returns (i: nat)
    requires Fold(entries, local, byNode, byId).Rejected?
    ensures i < |entries| && HaltsAt(entries, i, local, byId, Fold(entries, local, byNode, byId).why)
  {
    hide ValidNode;
    var (node, target) := entries[0];
    i := 0;
    if EntryFits(node, target, local) && IdOf(target) !in byId {
      var peer := NormalizeTarget(target).value;
      i := FoldHalts(entries[1..], local, byNode[node := peer], byId[peer.id := node]);
      HaltsLater(entries, i, local, byId, Fold(entries, local, byNode, byId).why);
      i := i + 1;
    }
  }

  lemma HaltsLater(entries: seq<(Node, Target)>, i: nat, local: Node, byId: map<Id, Node>, why: Rejection)
    requires entries != [] && i < |entries| - 1 && EntryFits(entries[0].0, entries[0].1, local)
    requires HaltsAt(entries[1..], i, local, byId[IdOf(entries[0].1) := entries[0].0], why)
    ensures HaltsAt(entries, i + 1, local, byId, why)
  {
    hide ValidNode, NormalizeTarget;
    var tail := entries[1..];
    assert tail[i] == entries[i + 1];
    assert forall j | 0 <= j < i :: tail[j] == entries[j + 1];
  }

  lemma RejectedHasFault(entries: seq<(Node, Target)>, peers: map<Node, Target>, local: Node)
    requires Enumerates(entries, peers) && NormalizePeers(entries, local).Rejected?
    ensures Fault(peers, local, NormalizePeers(entries, local).why)
  {
    hide ValidNode, NormalizeTarget, Fold;
    var i := FoldHalts(entries, local, map[], map[]);
    var (node, target) := entries[i];
    assert entries[i] in entries && node in peers && peers[node] == target;
    if j :| 0 <= j < i && EntryFits(entries[j].0, entries[j].1, local) && IdOf(entries[j].1) == IdOf(target)
            && EntryFits(node, target, local)
    {
      assert entries[j] in entries;
      assert Clash(peers, local, entries[j].0, node);
    }
  }

  // Any entry, and any two, may be met first.

  lemma EnumerationWith(first: Node, rest: seq<(Node, Target)>, peers: map<Node, Target>)
    requires first in peers && Enumerates(rest, peers - {first})
    ensures Enumerates([(first, peers[first])] + rest, peers)
  {
    var entries := [(first, peers[first])] + rest;
    forall n <- peers ensures (n, peers[n]) in entries {
      if n != first {
        assert (n, (peers - {first})[n]) in rest;
      } else {
        assert entries[0] == (n, peers[n]);
      }
    }
    forall j | 0 < j < |entries|
      ensures entries[j] in rest
    {
      assert entries[j] == rest[j - 1];
    }
  }

  lemma {:induction false} SomeEnumeration(peers: map<Node, Target>) returns (entries: seq<(Node, Target)>)
    ensures Enumerates(entries, peers)
    decreases |peers|
  {
    entries := [];
    if n :| n in peers {
      Smaller(peers, n);
      var rest := SomeEnumeration(peers - {n});
      EnumerationWith(n, rest, peers);
      entries := [(n, peers[n])] + rest;
    }
  }

  lemma EnumerationFrom(n: Node, peers: map<Node, Target>) returns (entries: seq<(Node, Target)>)
    requires n in peers
    ensures Enumerates(entries, peers) && entries != [] && entries[0] == (n, peers[n])
  {
    var rest := SomeEnumeration(peers - {n});
    EnumerationWith(n, rest, peers);
    entries := [(n, peers[n])] + rest;
  }

  lemma ClashIsReported(n: Node, m: Node, peers: map<Node, Target>, local: Node) returns (entries: seq<(Node, Target)>)
    requires n in peers && m in peers && Clash(peers, local, n, m)
    ensures Enumerates(entries, peers) && NormalizePeers(entries, local) == Rejected(Conflict)
  {
    hide ValidNode, NormalizeTarget;
    var rest := EnumerationFrom(m, peers - {n});
    EnumerationWith(n, rest, peers);
    entries := [(n, peers[n])] + rest;
    assert entries[1..] == rest;
    var peer := NormalizeTarget(peers[n]).value;
    assert Fold(rest, local, map[n := peer], map[peer.id := n]) == Rejected(Conflict);
  }

  lemma FaultIsReported(peers: map<Node, Target>, local: Node, why: Rejection) returns (entries: seq<(Node, Target)>)
    requires Fault(peers, local, why)
    ensures Enumerates(entries, peers) && NormalizePeers(entries, local) == Rejected(why)
  {
    hide ValidNode, NormalizeTarget;
    match why
    case InvalidNode =>
      var n :| n in peers && !ValidNode(n);
      entries := EnumerationFrom(n, peers);
    case InvalidTarget =>
      var n :| n in peers && ValidNode(n) && n != local && NormalizeTarget(peers[n]).None?;
      entries := EnumerationFrom(n, peers);
    case Conflict =>
      if local in peers && ValidNode(local) {
        entries := EnumerationFrom(local, peers);
      } else {
        var n, m :| n in peers && m in peers && Clash(peers, local, n, m);
        entries := ClashIsReported(n, m, peers, local);
      }
  }

  ghost predicate Reported(peers: map<Node, Target>, local: Node, why: Rejection) {
    exists entries :: Enumerates(entries, peers) && NormalizePeers(entries, local) == Rejected(why)
  }

  /** Some order of enumeration reports an error exactly when the map has that fault. */
  lemma ReportedIffFault(peers: map<Node, Target>, local: Node, why: Rejection)
    ensures Reported(peers, local, why) <==> Fault(peers, local, why)
  {
    hide Fault, NormalizePeers, Enumerates;
    if entries :| Enumerates(entries, peers) && NormalizePeers(entries, local) == Rejected(why) {
      RejectedHasFault(entries, peers, local);
    }
    if Fault(peers, local, why) {
      var entries := FaultIsReported(peers, local, why);
    }
  }

  /** So the error does not depend on the order exactly when the map has one kind of fault;
      and a map is accepted exactly when it has none. */
  lemma ErrorFixedIffOneFault(peers: map<Node, Target>, local: Node, why: Rejection)
    ensures (forall entries | Enumerates(entries, peers) :: NormalizePeers(entries, local) == Rejected(why))
            <==> Fault(peers, local, why) && forall other | other != why :: !Fault(peers, local, other)
    ensures Acceptable(peers, local) <==> forall any :: !Fault(peers, local, any)
  {
    hide Fault, NormalizePeers, Enumerates, Acceptable;
    var some := SomeEnumeration(peers);
    NormalizeSucceedsIffAcceptable(some, peers, local);
    if NormalizePeers(some, local).Rejected? {
      RejectedHasFault(some, peers, local);
    }
    forall any | Fault(peers, local, any)
      ensures !Acceptable(peers, local)
      ensures exists entries :: Enumerates(entries, peers) && NormalizePeers(entries, local) == Rejected(any)
    {
      var entries := FaultIsReported(peers, local, any);
      NormalizeSucceedsIffAcceptable(entries, peers, local);
    }
    forall entries | Enumerates(entries, peers)
      ensures match NormalizePeers(entries, local)
              case Rejected(any) => Fault(peers, local, any)
              case Table(_, _) => Acceptable(peers, local)
    {
      NormalizeSucceedsIffAcceptable(entries, peers, local);
      if NormalizePeers(entries, local).Rejected? {
        RejectedHasFault(entries, peers, local);
      }
    }
  }

  // ----- admission

  datatype Config = Config(name: Node, peers: map<Node, Peer>, ids: map<Id, Node>)

  /** A configuration whose tables came out of `NormalizePeers`. */
  ghost predicate Installed(config: Config) {
    && MutuallyInverse(config.peers, config.ids)
    && config.name !in config.peers
    && ValidNode(config.name)
    && forall n <- config.peers :: ValidNode(n)
  }

  lemma NormalizedIsInstalled(entries: seq<(Node, Target)>, peers: map<Node, Target>, local: Node)
    requires Enumerates(entries, peers) && ValidNode(local) && NormalizePeers(entries, local).Table?
    ensures var r := NormalizePeers(entries, local); Installed(Config(local, r.byNode, r.byId))
  {
    NormalizeSucceedsIffAcceptable(entries, peers, local);
    assert forall n <- peers :: EntryFits(n, peers[n], local);
  }

  function ExpectedId(config: Config, node: Node): Option<Id> {
    if node in config.peers then Some(config.peers[node].id) else None
  }

  function AuthorizeId(config: Config, id: Id): Option<Node> {
    if id in config.ids then Some(config.ids[id]) else None
  }

  /** `authorize_claim`: none of the reasons for refusal is told apart. */
  function AuthorizeClaim(config: Config, remoteName: Binary, remoteId: Id, targetName: Binary): Option<Node> {
    if targetName != config.name then None
    else if remoteName !in config.peers then None
    else if config.peers[remoteName].id != remoteId then None
    else Some(remoteName)
  }

  /** The later check, made by the endpoint server before node-up. */
  datatype PeerCheck = PeerOk | IdentityMismatch | UnknownPeer

  function ValidatePeer(config: Config, node: Node, remoteId: Id): PeerCheck {
    match ExpectedId(config, node)
    case None => UnknownPeer
    case Some(id) => if id == remoteId then PeerOk else IdentityMismatch
  }

  /** The two lookups are inverse to each other. */
  lemma LookupsInverse(config: Config, id: Id, node: Node)
    requires Installed(config)
    ensures AuthorizeId(config, id) == Some(node) <==> ExpectedId(config, node) == Some(id)
  {
    if ExpectedId(config, node) == Some(id) {
      assert config.ids[config.peers[node].id] == node;
    }
    if AuthorizeId(config, id) == Some(node) {
      assert config.peers[config.ids[id]].id == id;
    }
  }

  /** A claim is granted exactly when it addresses this node and names the one node bound
      to the authenticated id; so an admitted key can speak for one name only, and a
      granted claim passes the later check. */
  lemma ClaimGrantedIffBound(config: Config, remoteName: Binary, remoteId: Id, targetName: Binary)
    requires Installed(config)
    ensures var granted := AuthorizeClaim(config, remoteName, remoteId, targetName);
            && (granted.Some? <==> targetName == config.name && AuthorizeId(config, remoteId) == Some(remoteName))
            && (granted.Some? ==> granted.value == remoteName != config.name
                                  && ValidatePeer(config, granted.value, remoteId) == PeerOk)
  {
    LookupsInverse(config, remoteId, remoteName);
  }

  /** The later check: it passes exactly for the one node bound to the authenticated id, and
      tells an unknown node from a known one with another id. */
  lemma PeerPassesIffBound(config: Config, node: Node, remoteId: Id)
    requires Installed(config)
    ensures var check := ValidatePeer(config, node, remoteId);
            && (check == PeerOk <==> AuthorizeId(config, remoteId) == Some(node))
            && (check == UnknownPeer <==> node !in config.peers)
            && (check == IdentityMismatch <==> node in config.peers && AuthorizeId(config, remoteId) != Some(node))
  {
    LookupsInverse(config, remoteId, node);
  }

  /** From the configured map to the lookups: an id stands for a node, and a node for an id,
      exactly when the map gives that node a target with that id. */
  lemma LookupsFollowConfiguration(entries: seq<(Node, Target)>, peers: map<Node, Target>, local: Node,
                                   node: Node, id: Id)
    requires Enumerates(entries, peers) && ValidNode(local) && NormalizePeers(entries, local).Table?
    ensures var r := NormalizePeers(entries, local);
            var config := Config(local, r.byNode, r.byId);
            var bound := node in peers && TargetId(peers[node]) == Some(id);
            && (AuthorizeId(config, id) == Some(node) <==> bound)
            && (ExpectedId(config, node) == Some(id) <==> bound)
            && (AuthorizeClaim(config, node, id, local) == Some(node) <==> bound)
  {
    hide ValidNode;
    NormalizeSucceedsIffAcceptable(entries, peers, local);
    NormalizedIsInstalled(entries, peers, local);
    var r := NormalizePeers(entries, local);
    LookupsInverse(Config(local, r.byNode, r.byId), id, node);
    if node in peers {
      TargetNormalizes(peers[node]);
    }
  }
}
