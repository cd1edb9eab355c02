/** What holds in every state that the chat server can reach. */
module RoomInvariants {
  import opened RoomState

  // ---------- the indexes ----------

  /** The two indexes of the connections describe the same relation, and no room is empty. */
  ghost predicate IndexInv(ram: Ram) {
    && (forall c :: c in ram.peers ==> c in InRoom(ram, ram.peers[c].roomId))
    && (forall r, c :: r in ram.byRoom && c in ram.byRoom[r] ==> c in ram.peers && ram.peers[c].roomId == r)
    && (forall r :: r in ram.byRoom ==> ram.byRoom[r] != {})
  }

  lemma AddPeerIndex(ram: Ram, c: Conn, room: Room, peerId: string)
    requires IndexInv(ram) && c !in ram.peers
    ensures IndexInv(AddPeer(ram, c, room, peerId))
    ensures forall r :: JoinedIn(AddPeer(ram, c, room, peerId), r) == JoinedIn(ram, r)
  {
  }

  lemma RemovePeerIndex(ram: Ram, c: Conn)
    requires IndexInv(ram) && c in ram.peers
    ensures IndexInv(RemovePeer(ram, c))
    ensures forall r :: JoinedIn(RemovePeer(ram, c), r) == JoinedIn(ram, r) - {c}
  {
    var ram' := RemovePeer(ram, c);
    forall r ensures InRoom(ram', r) == InRoom(ram, r) - {c} {
    }
  }

  /** Where a peer is, and as whom. */
  function Place(p: Peer): (string, Room, bool) {
    (p.peerId, p.roomId, p.joined)
  }

  /** The peers are where they were. */
  ghost predicate SamePlaces(a: Ram, b: Ram) {
    a.byRoom == b.byRoom && a.peers.Keys == b.peers.Keys
        && forall c :: c in a.peers ==> Place(a.peers[c]) == Place(b.peers[c])
  }

  lemma SamePlacesIndex(a: Ram, b: Ram)
    requires SamePlaces(a, b) && IndexInv(a)
    ensures IndexInv(b)
  {
    assert forall c :: c in a.peers ==> Place(a.peers[c]).1 == Place(b.peers[c]).1;
  }

  lemma SamePlacesJoined(a: Ram, b: Ram, room: Room)
    requires SamePlaces(a, b)
    ensures JoinedIn(a, room) == JoinedIn(b, room)
  {
    assert forall c :: c in a.peers ==> Place(a.peers[c]).2 == Place(b.peers[c]).2;
  }

  lemma MarkJoinedIndex(ram: Ram, c: Conn, peerId: string)
    requires IndexInv(ram) && c in ram.peers
    ensures IndexInv(MarkJoined(ram, c, peerId))
    ensures forall r ::
              JoinedIn(MarkJoined(ram, c, peerId), r) == JoinedIn(ram, r) + if r == ram.peers[c].roomId then {c} else {}
  {
  }

  // ---------- what a connection has been told ----------

  /** The members of its room, as a connection can work them out from the frames it was sent. */
  function View(log: seq<Frame>): multiset<string> {
    if log == [] then multiset{}
    else
      var before := View(log[..|log| - 1]);
      match log[|log| - 1]
      case Joined(_, _, _, members) => multiset(members)
      case PeerJoin(id) => before + multiset{id}
      case PeerLeave(id) => before - multiset{id}
      case _ => before
  }

  function Items(history: seq<CachedMessage>): (r: seq<(string, string)>)
    ensures |r| == |history|
  {
    seq(|history|, i requires 0 <= i < |history| => (history[i].senderPeerId, history[i].payload))
  }

  /** The messages that a connection has been sent: the history it was given, then the live ones. */
  function Received(log: seq<Frame>): seq<(string, string)> {
    if log == [] then []
    else
      var before := Received(log[..|log| - 1]);
      match log[|log| - 1]
      case Joined(_, _, history, _) => Items(history)
      case Msg(id, payload, _) => before + [(id, payload)]
      case _ => before
  }

  /** A frame that says nothing about members or messages. */
  predicate Neutral(f: Frame) {
    !f.Joined? && !f.PeerJoin? && !f.PeerLeave? && !f.Msg?
  }

  lemma LogGrows(log: seq<Frame>, f: Frame)
    ensures f.Joined? ==> View(log + [f]) == multiset(f.members) && Received(log + [f]) == Items(f.history)
    ensures f.PeerJoin? ==> View(log + [f]) == View(log) + multiset{f.peerId} && Received(log + [f]) == Received(log)
    ensures f.PeerLeave? ==> View(log + [f]) == View(log) - multiset{f.peerId} && Received(log + [f]) == Received(log)
    ensures f.Msg? ==> View(log + [f]) == View(log) && Received(log + [f]) == Received(log) + [(f.peerId, f.payload)]
    ensures Neutral(f) ==> View(log + [f]) == View(log) && Received(log + [f]) == Received(log)
  {
    assert (log + [f])[..|log|] == log;
  }

  lemma SendLogs(sent: Sent, c: Conn, f: Frame)
    ensures LogOf(Send(sent, c, f), c) == LogOf(sent, c) + [f]
    ensures forall d :: d != c ==> LogOf(Send(sent, c, f), d) == LogOf(sent, d)
  {
  }

  lemma SendAllLogs(sent: Sent, targets: set<Conn>, f: Frame)
    ensures forall d :: d in targets ==> LogOf(SendAll(sent, targets, f), d) == LogOf(sent, d) + [f]
    ensures forall d :: d !in targets ==> LogOf(SendAll(sent, targets, f), d) == LogOf(sent, d)
  {
  }

  /** Nothing was sent but neutral frames. */
  ghost predicate Quiet(a: Sent, b: Sent) {
    forall c :: View(LogOf(b, c)) == View(LogOf(a, c)) && Received(LogOf(b, c)) == Received(LogOf(a, c))
  }

  lemma SendQuiet(sent: Sent, c: Conn, f: Frame)
    requires Neutral(f)
    ensures Quiet(sent, Send(sent, c, f))
  {
    LogGrows(LogOf(sent, c), f);
    SendLogs(sent, c, f);
  }

  lemma SendAllQuiet(sent: Sent, targets: set<Conn>, f: Frame)
    requires Neutral(f)
    ensures Quiet(sent, SendAll(sent, targets, f))
  {
    SendAllLogs(sent, targets, f);
    hide View, Received;
    forall c ensures View(LogOf(SendAll(sent, targets, f), c)) == View(LogOf(sent, c))
                     && Received(LogOf(SendAll(sent, targets, f), c)) == Received(LogOf(sent, c)) {
      LogGrows(LogOf(sent, c), f);
    }
  }

  // ---------- members ----------

  /** The joined connections of a room that have a given peer id. */
  ghost function With(ram: Ram, room: Room, id: string): set<Conn> {
    set d | d in JoinedIn(ram, room) && ram.peers[d].peerId == id
  }

  /** A connection's view of its room is the peers that are joined to it, each as often as it is connected. */
  ghost predicate SeesMembers(ram: Ram, log: seq<Frame>, room: Room) {
    forall id :: View(log)[id] == |With(ram, room, id)|
  }

  ghost predicate MembersInv(ram: Ram, sent: Sent) {
    forall c :: IsJoined(ram, c) ==> SeesMembers(ram, LogOf(sent, c), ram.peers[c].roomId)
  }

  lemma SameView(a: Ram, b: Ram, log: seq<Frame>, log': seq<Frame>, room: Room)
    requires SeesMembers(a, log, room) && View(log') == View(log)
    requires JoinedIn(a, room) == JoinedIn(b, room)
             && forall d :: d in JoinedIn(a, room) ==> a.peers[d].peerId == b.peers[d].peerId
    ensures SeesMembers(b, log', room)
  {
    forall id ensures With(a, room, id) == With(b, room, id) {
    }
  }

  lemma MembersQuiet(a: Ram, b: Ram, sent: Sent, sent': Sent)
    requires MembersInv(a, sent) && SamePlaces(a, b) && Quiet(sent, sent')
    ensures MembersInv(b, sent')
  {
    forall c | IsJoined(b, c) ensures SeesMembers(b, LogOf(sent', c), b.peers[c].roomId) {
      assert Place(a.peers[c]) == Place(b.peers[c]);
      SamePlacesJoined(a, b, b.peers[c].roomId);
      forall d | d in JoinedIn(a, b.peers[c].roomId) ensures a.peers[d].peerId == b.peers[d].peerId {
        assert Place(a.peers[d]) == Place(b.peers[d]);
      }
      SameView(a, b, LogOf(sent, c), LogOf(sent', c), b.peers[c].roomId);
    }
  }

  lemma MembersAccept(ram: Ram, sent: Sent, c: Conn, room: Room, peerId: string)
    requires IndexInv(ram) && MembersInv(ram, sent) && c !in ram.peers
    ensures MembersInv(AddPeer(ram, c, room, peerId), sent)
  {
    var ram' := AddPeer(ram, c, room, peerId);
    AddPeerIndex(ram, c, room, peerId);
    forall d | IsJoined(ram', d) ensures SeesMembers(ram', LogOf(sent, d), ram'.peers[d].roomId) {
      SameView(ram, ram', LogOf(sent, d), LogOf(sent, d), ram.peers[d].roomId);
    }
  }

  lemma WithoutLeaver(ram: Ram, c: Conn, room: Room, id: string)
    requires IndexInv(ram) && c in ram.peers
    ensures With(RemovePeer(ram, c), room, id) == With(ram, room, id) - {c}
  {
    RemovePeerIndex(ram, c);
  }

  lemma LeaverGone(ram: Ram, c: Conn, room: Room, log: seq<Frame>, p: Peer)
    requires IndexInv(ram) && c in ram.peers && p == ram.peers[c] && SeesMembers(ram, log, room)
    ensures p.joined && p.roomId == room ==> SeesMembers(RemovePeer(ram, c), log + [PeerLeave(p.peerId)], room)
    ensures !(p.joined && p.roomId == room) ==> SeesMembers(RemovePeer(ram, c), log, room)
  {
    hide View, With, RemovePeer, IndexInv;
    LogGrows(log, PeerLeave(p.peerId));
    InWith(ram, room, c);
    forall id ensures With(RemovePeer(ram, c), room, id) == With(ram, room, id) - {c} {
      WithoutLeaver(ram, c, room, id);
    }
  }

  lemma InWith(ram: Ram, room: Room, c: Conn)
    requires IndexInv(ram) && c in ram.peers
    ensures forall id ::
              c in With(ram, room, id)
              <==> ram.peers[c].joined && ram.peers[c].roomId == room && ram.peers[c].peerId == id
  {
  }

  /** When a joined peer goes, the others are told, and their views lose it. */
  lemma MembersClose(ram: Ram, sent: Sent, c: Conn)
    requires IndexInv(ram) && MembersInv(ram, sent) && c in ram.peers
    ensures var p, ram' := ram.peers[c], RemovePeer(ram, c);
            MembersInv(ram', if p.joined then Broadcast(ram', sent, p.roomId, PeerLeave(p.peerId), {}) else sent)
  {
    var p, ram' := ram.peers[c], RemovePeer(ram, c);
    RemovePeerIndex(ram, c);
    var targets, f := JoinedIn(ram', p.roomId) - {}, PeerLeave(p.peerId);
    SendAllLogs(sent, targets, f);
    var sent' := if p.joined then Broadcast(ram', sent, p.roomId, f, {}) else sent;
    forall d | IsJoined(ram', d) ensures SeesMembers(ram', LogOf(sent', d), ram'.peers[d].roomId) {
      LeaverGone(ram, c, ram.peers[d].roomId, LogOf(sent, d), p);
    }
  }

  lemma WithJoiner(ram: Ram, c: Conn, newId: string, room: Room, id: string)
    requires IndexInv(ram) && c in ram.peers && !ram.peers[c].joined
    ensures With(MarkJoined(ram, c, newId), room, id)
         == With(ram, room, id) + if room == ram.peers[c].roomId && id == newId then {c} else {}
    ensures c !in With(ram, room, id)
  {
    MarkJoinedIndex(ram, c, newId);
  }

  function Named(ram: Ram, order: seq<Conn>, id: string): set<Conn>
    requires forall c :: c in order ==> c in ram.peers
  {
    set c | c in order && ram.peers[c].peerId == id
  }

  lemma NamedGrows(ram: Ram, front: seq<Conn>, last: Conn, id: string)
    requires (forall c :: c in front ==> c in ram.peers) && last in ram.peers && last !in front
    ensures Named(ram, front + [last], id)
            == Named(ram, front, id) + if ram.peers[last].peerId == id then {last} else {}
    ensures PeerIds(ram, front + [last]) == PeerIds(ram, front) + [ram.peers[last].peerId]
    ensures last !in Named(ram, front, id)
  {
  }

  /** The members listed in some order are the members. */
  lemma {:induction false} ListCounts(ram: Ram, order: seq<Conn>, id: string)
    requires (forall c :: c in order ==> c in ram.peers) && forall i, j :: 0 <= i < j < |order| ==> order[i] != order[j]
    ensures multiset(PeerIds(ram, order))[id] == |Named(ram, order, id)|
    decreases |order|
  {
    if order == [] {
      assert Named(ram, order, id) == {};
    } else {
      var front, last := order[..|order| - 1], order[|order| - 1];
      assert order == front + [last];
      hide Named, PeerIds;
      ListCounts(ram, front, id);
      NamedGrows(ram, front, last, id);
    }
  }

  lemma JoinerSees(ram: Ram, c: Conn, order: seq<Conn>, log: seq<Frame>, f: Frame, room: Room)
    requires Enumerates(order, JoinedIn(ram, room)) && (forall d :: d in order ==> d in ram.peers)
    requires f.Joined? && f.members == PeerIds(ram, order)
    ensures SeesMembers(ram, log + [f], room)
  {
    LogGrows(log, f);
    forall id ensures View(log + [f])[id] == |With(ram, room, id)| {
      ListCounts(ram, order, id);
      assert Named(ram, order, id) == With(ram, room, id);
    }
  }

  lemma OthersSee(ram: Ram, c: Conn, newId: string, room: Room, log: seq<Frame>)
    requires IndexInv(ram) && c in ram.peers && !ram.peers[c].joined && SeesMembers(ram, log, room)
    ensures SeesMembers(MarkJoined(ram, c, newId), if room == ram.peers[c].roomId then log + [PeerJoin(newId)] else log,
            room)
  {
    hide View, With, MarkJoined, IndexInv;
    LogGrows(log, PeerJoin(newId));
    forall id ensures With(MarkJoined(ram, c, newId), room, id)
                   == With(ram, room, id) + if room == ram.peers[c].roomId && id == newId then {c} else {} {
      WithJoiner(ram, c, newId, room, id);
    }
    forall id ensures c !in With(ram, room, id) {
      WithJoiner(ram, c, newId, room, id);
    }
  }

  /** When a peer joins, its snapshot is the members with itself, and the others' views gain it. */
  lemma MembersJoin(ram: Ram, sent: Sent, c: Conn, newId: string, order: seq<Conn>, f: Frame)
    requires IndexInv(ram) && MembersInv(ram, sent) && c in ram.peers && !ram.peers[c].joined
    requires Enumerates(order, JoinedIn(ram, ram.peers[c].roomId) + {c})
    requires forall d :: d in order ==> d in ram.peers
    requires f.Joined? && f.members == PeerIds(MarkJoined(ram, c, newId), order)
    ensures MembersInv(MarkJoined(ram, c, newId),
                       Broadcast(MarkJoined(ram, c, newId), Send(sent, c, f), ram.peers[c].roomId, PeerJoin(newId),
                           {c}))
  {
    var room, ram' := ram.peers[c].roomId, MarkJoined(ram, c, newId);
    MarkJoinedIndex(ram, c, newId);
    var targets := JoinedIn(ram', room) - {c};
    var sent' := Broadcast(ram', Send(sent, c, f), room, PeerJoin(newId), {c});
    SendLogs(sent, c, f);
    SendAllLogs(Send(sent, c, f), targets, PeerJoin(newId));
    forall d | IsJoined(ram', d) ensures SeesMembers(ram', LogOf(sent', d), ram'.peers[d].roomId) {
      if d == c {
        JoinerSees(ram', c, order, LogOf(sent, c), f, room);
      } else {
        OthersSee(ram, c, newId, ram.peers[d].roomId, LogOf(sent, d));
      }
    }
  }

  // ---------- messages ----------

  /** What a joined connection has received is the messages of its room from some point on. */
  ghost predicate HistoryInv(ram: Ram, sent: Sent, rec: Records) {
    forall c :: HistoryOk(ram, sent, rec, c)
  }

  ghost predicate HistoryOk(ram: Ram, sent: Sent, rec: Records, c: Conn) {
    IsJoined(ram, c) ==>
      c in rec.start && IsSuffix(Received(LogOf(sent, c)), Messages(rec, ram.peers[c].roomId), rec.start[c])
  }

  predicate IsSuffix<T(==)>(s: seq<T>, whole: seq<T>, start: nat) {
    start <= |whole| && s == whole[start..]
  }

  lemma SuffixGrows<T>(s: seq<T>, whole: seq<T>, start: nat, x: T)
    requires IsSuffix(s, whole, start)
    ensures IsSuffix(s + [x], whole + [x], start)
  {
  }

  function CacheSize(cfg: Config): nat {
    if cfg.messageCacheSize <= 0 then 0 else cfg.messageCacheSize
  }

  /** The cache of a room is the last of its messages since the cache was last erased, as many as fit. */
  ghost predicate CacheInv(cfg: Config, ram: Ram, rec: Records) {
    forall r :: CacheOk(cfg, ram, rec, r)
  }

  ghost predicate CacheOk(cfg: Config, ram: Ram, rec: Records, r: Room) {
    && ErasedAt(rec, r) <= |Messages(rec, r)|
    && Items(Recent(ram, r)) == LastOf(Messages(rec, r)[ErasedAt(rec, r)..], CacheSize(cfg))
  }

  lemma HistoryQuiet(a: Ram, b: Ram, sent: Sent, sent': Sent, rec: Records, rec': Records)
    requires HistoryInv(a, sent, rec) && SamePlaces(a, b) && Quiet(sent, sent')
    requires rec'.messages == rec.messages && rec'.start == rec.start
    ensures HistoryInv(b, sent', rec')
  {
    forall c ensures HistoryOk(b, sent', rec', c) {
      assert HistoryOk(a, sent, rec, c);
      if c in a.peers {
        assert Place(a.peers[c]) == Place(b.peers[c]);
      }
    }
  }

  lemma LastOfGrows<T>(s: seq<T>, x: T, k: nat)
    ensures LastOf(LastOf(s, k) + [x], k) == LastOf(s + [x], k)
  {
  }

  lemma LastOfItems(history: seq<CachedMessage>, k: nat)
    ensures Items(LastOf(history, k)) == LastOf(Items(history), k)
  {
  }

  lemma ItemsGrow(history: seq<CachedMessage>, m: CachedMessage)
    ensures Items(history + [m]) == Items(history) + [(m.senderPeerId, m.payload)]
  {
  }

  /** A message enters the log of its room, its cache and what its joined connections have received. */
  lemma CacheRelay(cfg: Config, ram: Ram, rec: Records, room: Room, m: CachedMessage, rec': Records)
    requires CacheInv(cfg, ram, rec)
    requires rec'.messages == rec.messages[room := Messages(rec, room) + [(m.senderPeerId, m.payload)]]
             && rec'.erasedAt == rec.erasedAt
    ensures CacheInv(cfg, AppendCached(ram, room, m, cfg.messageCacheSize), rec')
  {
    var ram', k, item := AppendCached(ram, room, m, cfg.messageCacheSize), CacheSize(cfg), (m.senderPeerId, m.payload);
    forall r ensures CacheOk(cfg, ram', rec', r) {
      assert CacheOk(cfg, ram, rec, r);
      if r == room {
        var since := Messages(rec, r)[ErasedAt(rec, r)..];
        assert Messages(rec', r)[ErasedAt(rec, r)..] == since + [item];
        hide Items;
        if k == 0 {
          assert LastOf(since, 0) == [] && LastOf(since + [item], 0) == [];
        } else {
          LastOfItems(Recent(ram, r) + [m], k);
          ItemsGrow(Recent(ram, r), m);
          LastOfGrows(since, item, k);
        }
      }
    }
  }

  lemma CacheErased(cfg: Config, ram: Ram, rec: Records, room: Room, rec': Records)
    requires CacheInv(cfg, ram, rec)
    requires rec'.messages == rec.messages && rec'.erasedAt == rec.erasedAt[room := |Messages(rec, room)|]
    ensures CacheInv(cfg, DropCache(ram, room), rec')
  {
    forall r ensures CacheOk(cfg, DropCache(ram, room), rec', r) {
      assert CacheOk(cfg, ram, rec, r);
    }
  }

  lemma CacheSame(cfg: Config, a: Ram, b: Ram, rec: Records, rec': Records)
    requires CacheInv(cfg, a, rec) && a.msgCache == b.msgCache && rec'.messages == rec.messages
             && rec'.erasedAt == rec.erasedAt
    ensures CacheInv(cfg, b, rec')
  {
    forall r ensures CacheOk(cfg, b, rec', r) {
      assert CacheOk(cfg, a, rec, r);
    }
  }

  lemma HistoryRelayOne(ram: Ram, sent: Sent, sent': Sent, room: Room, f: Frame, rec: Records, rec': Records, c: Conn)
    requires HistoryOk(ram, sent, rec, c) && f.Msg?
    requires c in ram.peers ==>
              LogOf(sent', c) == LogOf(sent, c) + if ram.peers[c].joined && ram.peers[c].roomId == room then [f] else []
    requires rec'.messages == rec.messages[room := Messages(rec, room) + [(f.peerId, f.payload)]]
             && rec'.start == rec.start
    ensures HistoryOk(ram, sent', rec', c)
  {
    if IsJoined(ram, c) {
      LogGrows(LogOf(sent, c), f);
      hide Received;
      if ram.peers[c].roomId == room {
        SuffixGrows(Received(LogOf(sent, c)), Messages(rec, room), rec.start[c], (f.peerId, f.payload));
        hide IsSuffix;
      } else {
        assert LogOf(sent', c) == LogOf(sent, c);
      }
    }
  }

  lemma HistoryRelay(ram: Ram, ram': Ram, sent: Sent, room: Room, f: Frame, rec: Records, rec': Records)
    requires IndexInv(ram) && HistoryInv(ram, sent, rec) && f.Msg? && ram'.peers == ram.peers
    requires rec'.messages == rec.messages[room := Messages(rec, room) + [(f.peerId, f.payload)]]
             && rec'.start == rec.start
    ensures HistoryInv(ram', Broadcast(ram, sent, room, f, {}), rec')
  {
    var sent' := Broadcast(ram, sent, room, f, {});
    SendAllLogs(sent, JoinedIn(ram, room) - {}, f);
    forall c ensures HistoryOk(ram', sent', rec', c) {
      assert HistoryOk(ram, sent, rec, c);
      assert c in ram.peers ==> (c in JoinedIn(ram, room) <==> ram.peers[c].joined && ram.peers[c].roomId == room);
      hide HistoryOk, SendAll, LogOf;
      HistoryRelayOne(ram, sent, sent', room, f, rec, rec', c);
      SameHistory(ram, ram', sent', rec', c);
    }
  }

  lemma SameHistory(ram: Ram, ram': Ram, sent: Sent, rec: Records, c: Conn)
    requires HistoryOk(ram, sent, rec, c) && ram'.peers == ram.peers
    ensures HistoryOk(ram', sent, rec, c)
  {
  }

  lemma MembersRelay(ram: Ram, ram': Ram, sent: Sent, room: Room, f: Frame)
    requires MembersInv(ram, sent) && f.Msg? && ram'.peers == ram.peers && ram'.byRoom == ram.byRoom
    ensures MembersInv(ram', Broadcast(ram, sent, room, f, {}))
  {
    SendAllLogs(sent, JoinedIn(ram, room) - {}, f);
    var sent' := Broadcast(ram, sent, room, f, {});
    forall c | IsJoined(ram', c) ensures SeesMembers(ram', LogOf(sent', c), ram'.peers[c].roomId) {
      assert IsJoined(ram, c);
      LogGrows(LogOf(sent, c), f);
      SameView(ram, ram', LogOf(sent, c), LogOf(sent', c), ram.peers[c].roomId);
    }
  }
}
