/** The chat server as it runs: the tables, the room manager with its three indexes, and the handlers that call them.
    Every method does to its object what the step of the same name does to the state. */
module RoomServer {
  import opened Basics
  import opened RoomState
  import opened RoomInvariants
  import RoomRuns

  class Database {
    var rooms: map<Room, RoomRow>
    var challenges: seq<ChallengeRow>
    var nextId: nat
    var tokens: map<string, Room>

    ghost function At(): Db
      reads this
    {
      Db(rooms, challenges, nextId, tokens)
    }

    constructor ()
      ensures At() == START.db
    {
      rooms, challenges, nextId, tokens := map[], [], 1, map[];
    }

    method CreateRoom(room: Room, row: RoomRow) returns (ok: bool)
      modifies this`rooms
      ensures ok == RoomState.CreateRoom(old(At()), room, row).Some?
      ensures At() == if ok then RoomState.CreateRoom(old(At()), room, row).value else old(At())
    {
      if room in rooms {
        return false;
      }
      rooms := rooms[room := row];
      return true;
    }

    method FindRoom(room: Room) returns (r: Option<RoomRow>)
      ensures r == if room in rooms then Some(rooms[room]) else None
    {
      return if room in rooms then Some(rooms[room]) else None;
    }

    method CountRooms() returns (n: nat)
      ensures n == |rooms|
    {
      return |rooms|;
    }

    /** The row goes, and with it the rows of the other tables that refer to it. */
    method DeleteRoom(room: Room)
      modifies this`rooms, this`challenges, this`tokens
      ensures At() == RoomState.DeleteRoom(old(At()), room)
    {
      rooms := rooms - {room};
      tokens := map t | t in tokens && tokens[t] != room :: tokens[t];
      var kept: seq<ChallengeRow> := [];
      for i := 0 to |challenges|
        invariant kept == Without(challenges[..i], room)
      {
        assert challenges[..i + 1][..i] == challenges[..i];
        if challenges[i].roomId != room {
          kept := kept + [challenges[i]];
        }
      }
      assert challenges[..|challenges|] == challenges;
      challenges := kept;
    }

    method ActivateRoom(room: Room) returns (ok: bool)
      modifies this`rooms
      ensures ok == RoomState.ActivateRoom(old(At()), room).Some?
      ensures At() == if ok then RoomState.ActivateRoom(old(At()), room).value else old(At())
    {
      if room !in rooms {
        return false;
      }
      rooms := rooms[room := rooms[room].(activated := true)];
      return true;
    }

    /** Inserts row by row, and takes all of them back if one of them fails. */
    method InsertChallenges(room: Room, pairs: seq<ChallengePair>) returns (ok: bool)
      modifies this`challenges, this`nextId
      ensures ok == RoomState.InsertChallenges(old(At()), room, pairs).Some?
      ensures At() == if ok then RoomState.InsertChallenges(old(At()), room, pairs).value else old(At())
    {
      var before, firstId := challenges, nextId;
      assert pairs[..0] == [] && challenges == before + NewRows(room, [], firstId);
      for i := 0 to |pairs|
        invariant i > 0 ==> room in rooms
        invariant nextId == firstId + i && challenges == before + NewRows(room, pairs[..i], firstId)
      {
        if room !in rooms {
          challenges, nextId := before, firstId;
          return false;
        }
        assert NewRows(room, pairs[..i + 1], firstId)
               == NewRows(room, pairs[..i], firstId) + [ChallengeRow(firstId + i, room, pairs[i], false)];
        challenges := challenges + [ChallengeRow(nextId, room, pairs[i], false)];
        nextId := nextId + 1;
      }
      assert pairs[..|pairs|] == pairs;
      return true;
    }

    /** Takes the first challenge of a room that is not used, and marks it used. */
    method ConsumeChallenge(room: Room) returns (r: Option<ChallengePair>)
      modifies this`challenges
      ensures var next := FirstUnused(old(challenges), room);
              if next.None? then r == None && At() == old(At())
              else r == Some(old(challenges)[next.value].pair) && At() == MarkUsed(old(At()), next.value)
    {
      for i := 0 to |challenges|
        invariant forall j :: 0 <= j < i ==> challenges[j].roomId != room || challenges[j].used
      {
        if challenges[i].roomId == room && !challenges[i].used {
          r := Some(challenges[i].pair);
          challenges := challenges[i := challenges[i].(used := true)];
          return;
        }
      }
      return None;
    }

    method InsertAccessToken(token: string, room: Room) returns (ok: bool)
      modifies this`tokens
      ensures ok == InsertToken(old(At()), token, room).Some?
      ensures At() == if ok then InsertToken(old(At()), token, room).value else old(At())
    {
      if token in tokens || room !in rooms {
        return false;
      }
      tokens := tokens[token := room];
      return true;
    }

    method RoomForToken(token: string) returns (r: Option<Room>)
      ensures r == if token in tokens then Some(tokens[token]) else None
    {
      return if token in tokens then Some(tokens[token]) else None;
    }
  }

  lemma SendAllNone(sent: Sent, f: Frame)
    ensures SendAll(sent, {}, f) == sent
  {
    forall c | c in sent ensures LogOf(sent, c) + [] == sent[c] {
    }
  }

  lemma SameLogs(a: Sent, b: Sent)
    requires a.Keys == b.Keys && forall d :: LogOf(a, d) == LogOf(b, d)
    ensures a == b
  {
    forall d | d in a.Keys ensures a[d] == b[d] {
      assert LogOf(a, d) == LogOf(b, d);
    }
  }

  lemma SendAllOneMore(sent: Sent, told: set<Conn>, c: Conn, f: Frame)
    requires c !in told
    ensures SendAll(sent, told + {c}, f) == Send(SendAll(sent, told, f), c, f)
  {
    var a, b := SendAll(sent, told + {c}, f), Send(SendAll(sent, told, f), c, f);
    assert a.Keys == b.Keys;
    SendAllLogs(sent, told + {c}, f);
    SendAllLogs(sent, told, f);
    SendLogs(SendAll(sent, told, f), c, f);
    hide SendAll, Send, LogOf;
    SameLogs(a, b);
  }

  /** The frames of two rounds may be sent to one connection after the other. */
  lemma SendTwiceOneMore(sent: Sent, told: set<Conn>, c: Conn, f: Frame, g: Frame)
    requires c !in told
    ensures SendAll(SendAll(sent, told + {c}, f), told + {c}, g)
            == Send(Send(SendAll(SendAll(sent, told, f), told, g), c, f), c, g)
  {
    var a1, b1 := SendAll(sent, told + {c}, f), SendAll(SendAll(sent, told, f), told, g);
    var a, b := SendAll(a1, told + {c}, g), Send(Send(b1, c, f), c, g);
    assert a.Keys == b.Keys;
    SendAllLogs(sent, told + {c}, f);
    SendAllLogs(a1, told + {c}, g);
    SendAllLogs(sent, told, f);
    SendAllLogs(SendAll(sent, told, f), told, g);
    SendLogs(b1, c, f);
    SendLogs(Send(b1, c, f), c, g);
    hide SendAll, Send, LogOf;
    SameLogs(a, b);
  }

  class RoomManager {
    var peers: map<Conn, Peer>
    var byRoom: map<Room, set<Conn>>
    var msgCache: map<Room, seq<CachedMessage>>
    /** What the connections have been sent. */
    ghost var sent: Sent

    ghost function At(): Ram
      reads this`peers, this`byRoom, this`msgCache
    {
      Ram(peers, byRoom, msgCache)
    }

    constructor ()
      ensures At() == START.ram && sent == START.sent
    {
      peers, byRoom, msgCache, sent := map[], map[], map[], map[];
    }

    method SendText(c: Conn, f: Frame)
      modifies this`sent
      ensures sent == Send(old(sent), c, f)
    {
      sent := Send(sent, c, f);
    }

    method OnWsAccept(c: Conn, room: Room, peerId: string)
      modifies this`peers, this`byRoom
      ensures At() == AddPeer(old(At()), c, room, peerId)
    {
      byRoom := byRoom[room := (if room in byRoom then byRoom[room] else {}) + {c}];
      if c !in peers {
        peers := peers[c := Peer(peerId, room, false, "", "")];
      }
    }

    /** Returns whether the departure of a joined peer was announced. */
    method OnWsClose(c: Conn) returns (ghost departed: bool)
      modifies this`peers, this`byRoom, this`sent
      ensures departed == (c in old(peers) && old(peers)[c].joined)
      ensures c !in old(peers) ==> At() == old(At()) && sent == old(sent)
      ensures c in old(peers) ==>
                var p := old(peers)[c];
                && At() == RemovePeer(old(At()), c)
                && sent == if p.joined then RoomState.Broadcast(At(), old(sent), p.roomId, PeerLeave(p.peerId), {})
                    else old(sent)
    {
      if c !in peers {
        return false;
      }
      var p := peers[c];
      if p.roomId in byRoom {
        var rest := byRoom[p.roomId] - {c};
        if rest == {} {
          byRoom := byRoom - {p.roomId};
        } else {
          byRoom := byRoom[p.roomId := rest];
        }
      }
      peers := peers - {c};
      if p.joined {
        Broadcast(p.roomId, PeerLeave(p.peerId), {});
      }
      return p.joined;
    }

    method MarkPeerJoined(c: Conn, peerId: string)
      modifies this`peers
      ensures At() == if c in old(peers) then MarkJoined(old(At()), c, peerId) else old(At())
    {
      if c in peers {
        peers := peers[c := peers[c].(peerId := peerId, joined := true)];
      }
    }

    method SetPending(c: Conn, token: string, plaintext: string)
      requires c in peers
      modifies this`peers
      ensures At() == RoomState.SetPending(old(At()), c, token, plaintext)
    {
      peers := peers[c := peers[c].(pendingToken := token, expectedPlaintext := plaintext)];
    }

    /** The joined connections of a room, in the order in which they are met. */
    method JoinedConns(room: Room, except: set<Conn>) returns (targets: seq<Conn>)
      ensures Enumerates(targets, JoinedIn(At(), room) - except)
    {
      targets := [];
      if room !in byRoom {
        return;
      }
      var left := byRoom[room];
      while left != {}
        invariant left <= byRoom[room]
        invariant forall c :: c in targets <==> c in byRoom[room] - left && IsJoined(At(), c) && c !in except
        invariant forall i, j :: 0 <= i < j < |targets| ==> targets[i] != targets[j]
        decreases |left|
      {
        var c :| c in left;
        left := left - {c};
        if c !in except && c in peers && peers[c].joined {
          targets := targets + [c];
        }
      }
    }

    method LiveCount(room: Room) returns (n: nat)
      ensures n == |JoinedIn(At(), room)|
    {
      var targets := JoinedConns(room, {});
      EnumerationSize(targets, JoinedIn(At(), room) - {});
      assert JoinedIn(At(), room) - {} == JoinedIn(At(), room);
      return |targets|;
    }

    /** Sends a frame to every joined peer of a room but the excepted ones. */
    method Broadcast(room: Room, f: Frame, except: set<Conn>)
      modifies this`sent
      ensures sent == RoomState.Broadcast(At(), old(sent), room, f, except)
    {
      var targets := JoinedConns(room, except);
      ghost var told: set<Conn> := {};
      SendAllNone(sent, f);
      for i := 0 to |targets|
        invariant told == (set c | c in targets[..i])
        invariant sent == SendAll(old(sent), told, f)
      {
        var c := targets[i];
        assert c !in told;
        SendAllOneMore(old(sent), told, c, f);
        hide SendAll, Send;
        SendText(c, f);
        told := told + {c};
        assert targets[..i + 1] == targets[..i] + [c];
      }
      assert targets[..|targets|] == targets;
      assert told == JoinedIn(At(), room) - except;
    }

    /** Tells everybody in a room that it is gone, closes their connections and forgets its messages. */
    method CloseRoom(room: Room, reason: Frame)
      modifies this`msgCache, this`sent
      ensures At() == DropCache(old(At()), room)
      ensures sent == SendAll(SendAll(old(sent), InRoom(old(At()), room), reason), InRoom(old(At()), room),
              Close("room deleted"))
    {
      hide SendAll, Send;
      var targets := if room in byRoom then byRoom[room] else {};
      msgCache := msgCache - {room};
      ghost var told: set<Conn> := {};
      SendAllNone(sent, reason);
      SendAllNone(sent, Close("room deleted"));
      var left := targets;
      while left != {}
        invariant told !! left && told + left == targets
        invariant sent == SendAll(SendAll(old(sent), told, reason), told, Close("room deleted"))
        modifies this`sent
        decreases |left|
      {
        var c :| c in left;
        left := left - {c};
        SendTwiceOneMore(old(sent), told, c, reason, Close("room deleted"));
        SendText(c, reason);
        SendText(c, Close("room deleted"));
        told := told + {c};
      }
    }

    method AppendCachedMessage(room: Room, m: CachedMessage, cacheSize: int)
      modifies this`msgCache
      ensures At() == AppendCached(old(At()), room, m, cacheSize)
    {
      if cacheSize <= 0 {
        return;
      }
      var all := (if room in msgCache then msgCache[room] else []) + [m];
      var dq := all;
      while |dq| > cacheSize
        invariant |dq| <= |all| && dq == all[|all| - |dq|..] && (dq == all || |dq| >= cacheSize)
        decreases |dq|
      {
        dq := dq[1..];
      }
      msgCache := msgCache[room := dq];
    }

    method RecentMessages(room: Room) returns (history: seq<CachedMessage>)
      ensures history == Recent(At(), room)
    {
      return if room in msgCache then msgCache[room] else [];
    }

    /** The peer ids of the joined connections: each id as often as it is joined to the room. */
    method JoinedPeerIds(room: Room) returns (ids: seq<string>, ghost order: seq<Conn>)
      ensures Enumerates(order, JoinedIn(At(), room)) && (forall c :: c in order ==> c in peers)
              && ids == PeerIds(At(), order)
      ensures forall id :: multiset(ids)[id] == |With(At(), room, id)|
    {
      var conns := JoinedConns(room, {});
      assert JoinedIn(At(), room) - {} == JoinedIn(At(), room);
      ids := [];
      for i := 0 to |conns|
        invariant |ids| == i && forall j :: 0 <= j < i ==> conns[j] in peers && ids[j] == peers[conns[j]].peerId
      {
        assert conns[i] in conns;
        ids := ids + [peers[conns[i]].peerId];
      }
      order := conns;
      assert ids == PeerIds(At(), order);
      forall id ensures multiset(ids)[id] == |With(At(), room, id)| {
        CountedById(At(), room, order, id);
      }
    }
  }

  lemma CountedById(ram: Ram, room: Room, order: seq<Conn>, id: string)
    requires Enumerates(order, JoinedIn(ram, room)) && forall c :: c in order ==> c in ram.peers
    ensures multiset(PeerIds(ram, order))[id] == |With(ram, room, id)|
  {
    ListCounts(ram, order, id);
    assert Named(ram, order, id) == With(ram, room, id);
  }

  lemma {:induction false} EnumerationSize(order: seq<Conn>, conns: set<Conn>)
    requires Enumerates(order, conns)
    ensures |order| == |conns|
  {
    if order == [] {
      assert conns == {};
    } else {
      var front, last := order[..|order| - 1], order[|order| - 1];
      assert order == front + [last];
      EnumerationSize(front, conns - {last});
    }
  }

  /** Some way of walking a set. */
  ghost method SomeOrder(conns: set<Conn>) returns (order: seq<Conn>)
    ensures Enumerates(order, conns)
  {
    order := [];
    var left := conns;
    while left != {}
      invariant left <= conns
      invariant forall c :: c in order <==> c in conns - left
      invariant forall i, j :: 0 <= i < j < |order| ==> order[i] != order[j]
      decreases |left|
    {
      var c :| c in left;
      left := left - {c};
      order := order + [c];
    }
  }

  class ChatServer {
    const cfg: Config
    const db: Database
    const room: RoomManager
    ghost var rec: Records

    ghost function At(): World
      reads this, db, room
    {
      World(room.At(), db.At(), room.sent, rec)
    }

    /** The server is in a state that some run reaches, so that everything that is proved of those holds of it. */
    ghost predicate Valid()
      reads this, db, room
    {
      RoomRuns.Reachable(cfg, At())
    }

    constructor (cfg: Config)
      ensures this.cfg == cfg && fresh(db) && fresh(room) && At() == START && Valid()
    {
      this.cfg := cfg;
      db := new Database();
      room := new RoomManager();
      rec := START.rec;
      RoomRuns.ReachableStart(cfg);
    }

    method OnOpen(c: Conn, roomId: Room, peerId: string)
      requires Valid() && c !in rec.connected && roomId != ""
      modifies room`peers, room`byRoom, this`rec
      ensures At() == OnAccept(old(At()), c, roomId, peerId) && Valid()
    {
      hide RoomRuns.Reachable;
      RoomRuns.ReachableStep(cfg, At(), Event.Accept(c, roomId, peerId));
      room.OnWsAccept(c, roomId, peerId);
      rec := rec.(connected := rec.connected + {c});
    }

    /** The connection's close and error handlers both end here. */
    method OnCloseOrError(c: Conn)
      requires Valid()
      modifies room`peers, room`byRoom, room`sent, this`rec
      ensures At() == OnClose(old(At()), c) && Valid()
    {
      hide RoomRuns.Reachable;
      RoomRuns.ReachableStep(cfg, At(), Closed(c));
      ghost var ram := room.At();
      ghost var departed := room.OnWsClose(c);
      if departed {
        rec := rec.(departed := rec.departed[c := ram.peers[c].peerId]);
      }
    }

    method SendErr(c: Conn, code: string)
      modifies room`sent
      ensures At() == SendTo(old(At()), c, Error(code))
    {
      room.SendText(c, Error(code));
    }

    method SendErrAndClose(c: Conn, code: string)
      modifies room`sent
      ensures At() == Refuse(old(At()), c, code)
    {
      SendErr(c, code);
      room.SendText(c, Close(code));
    }

    method FinalizeJoin(c: Conn, token: string, isFresh: bool) returns (ghost order: seq<Conn>)
      requires c in room.peers && IndexInv(room.At())
      modifies room`peers, room`sent, this`rec
      ensures forall d :: d in order ==> d in old(room.peers)
      ensures Enumerates(order, JoinedIn(old(room.At()), old(room.peers)[c].roomId) + {c})
      ensures At() == RoomState.FinalizeJoin(old(At()), c, token, isFresh, order)
    {
      hide PeerIdFromToken, RoomState.Broadcast, Send, IndexInv;
      ghost var ram := room.At();
      var roomId := room.peers[c].roomId;
      var newPeerId := PeerIdFromToken(token);
      MarkJoinedIndex(ram, c, newPeerId);
      room.MarkPeerJoined(c, newPeerId);
      var history := room.RecentMessages(roomId);
      var members;
      members, order := room.JoinedPeerIds(roomId);
      room.SendText(c, Joined(newPeerId, if isFresh then Some(token) else None, history, members));
      room.Broadcast(roomId, PeerJoin(newPeerId), {c});
      ghost var start := |Messages(rec, roomId)| - |history|;
      rec := rec.(start := rec.start[c := if start < 0 then 0 else start]);
    }

    method OnHello(c: Conn, token: string, inputs: Inputs) returns (ghost order: seq<Conn>)
      requires c in room.peers && IndexInv(room.At())
      modifies room`peers, room`sent, db`challenges, this`rec
      ensures forall d :: d in order ==> d in old(room.peers)
      ensures Enumerates(order, JoinedIn(old(room.At()), old(room.peers)[c].roomId) + {c})
      ensures At() == Hello(old(At()), c, token, inputs.(order := order))
    {
      hide RoomState.FinalizeJoin, RoomState.IssueChallenge, Refuse;
      JoinedArePeers(room.At(), c);
      if token == "" {
        order := SomeOrder(JoinedIn(room.At(), room.peers[c].roomId) + {c});
        IssueSame(At(), c, inputs, inputs.(order := order));
        SendChallenge(c, inputs);
        return;
      }
      var owner := db.RoomForToken(token);
      if owner == Some(room.peers[c].roomId) {
        order := FinalizeJoin(c, token, false);
        return;
      }
      order := SomeOrder(JoinedIn(room.At(), room.peers[c].roomId) + {c});
      SendErrAndClose(c, "invalid_key");
    }

    /** Sends the next challenge of the room, or a decoy. */
    method SendChallenge(c: Conn, inputs: Inputs)
      requires c in room.peers
      modifies room`peers, room`sent, db`challenges, this`rec
      ensures At() == RoomState.IssueChallenge(old(At()), c, inputs)
    {
      hide JoinedIn, FirstUnused, Send;
      var roomId := room.peers[c].roomId;
      var row := db.FindRoom(roomId);
      var live := room.LiveCount(roomId);
      var pair := None;
      ghost var rows := db.challenges;
      if row.Some? && live < row.value.maxParticipants {
        pair := db.ConsumeChallenge(roomId);
      }
      ghost var next := if row.Some? && live < row.value.maxParticipants then FirstUnused(rows, roomId) else None;
      rec := if next.None? then rec.(origin := rec.origin - {c})
             else rec.(origin := rec.origin[c := rows[next.value].id],
                       handedOut := rec.handedOut[roomId := IdsOf(rec.handedOut, roomId) + [rows[next.value].id]]);
      var challenge := if pair.Some? then pair.value else inputs.decoy;
      room.SetPending(c, inputs.newToken, challenge.plaintext);
      room.SendText(c, Challenge(challenge.ciphertext, challenge.nonce));
    }

    method OnResponse(c: Conn, answer: string, inputs: Inputs) returns (ghost order: seq<Conn>)
      requires c in room.peers && IndexInv(room.At())
      modifies room`peers, room`sent, db`tokens, this`rec
      ensures forall d :: d in order ==> d in old(room.peers)
      ensures Enumerates(order, JoinedIn(old(room.At()), old(room.peers)[c].roomId) + {c})
      ensures At() == Respond(old(At()), c, answer, inputs.(order := order))
    {
      hide RoomState.FinalizeJoin, Refuse, Redeem;
      ghost var w, ram := At(), room.At();
      JoinedArePeers(ram, c);
      order := SomeOrder(JoinedIn(ram, room.peers[c].roomId) + {c});
      var p := room.peers[c];
      if p.pendingToken == "" || p.expectedPlaintext == "" {
        SendErrAndClose(c, "no_challenge");
        return;
      }
      PendingCleared(ram, c);
      room.SetPending(c, "", "");
      if answer == "" || answer != p.expectedPlaintext {
        SendErrAndClose(c, "invalid_key");
        return;
      }
      var ok := db.InsertAccessToken(p.pendingToken, p.roomId);
      if !ok {
        SendErrAndClose(c, "internal");
        return;
      }
      rec := Redeem(w, c, p.pendingToken, p.roomId);
      order := FinalizeJoin(c, p.pendingToken, true);
    }

    method OnRelay(c: Conn, kind: string, payload: string, inputs: Inputs)
      requires c in room.peers
      modifies room`msgCache, room`sent, this`rec
      ensures At() == Relay(cfg, old(At()), c, kind, payload, inputs)
    {
      hide RoomState.Broadcast, Send;
      var p := room.peers[c];
      if payload == "" {
        SendErr(c, "bad_payload");
        return;
      }
      if |payload| > cfg.wsMaxPayloadBytes {
        SendErr(c, "payload_too_large");
        return;
      }
      if kind == "msg" {
        SameBroadcast(room.At(), room.sent, p.roomId, CachedMessage(p.peerId, payload, inputs.cachedAt),
            cfg.messageCacheSize,
                      Msg(p.peerId, payload, inputs.sentAt));
        room.AppendCachedMessage(p.roomId, CachedMessage(p.peerId, payload, inputs.cachedAt), cfg.messageCacheSize);
        room.Broadcast(p.roomId, Msg(p.peerId, payload, inputs.sentAt), {});
        rec := rec.(messages := rec.messages[p.roomId := Messages(rec, p.roomId) + [(p.peerId, payload)]]);
      } else {
        room.Broadcast(p.roomId, Presence(p.peerId, payload, inputs.sentAt), {c});
      }
    }

    /** A message arrives. The order in which the connections of the room are met is reported back. */
    method OnMessage(c: Conn, size: int, message: Option<Message>, inputs: Inputs) returns (ghost order: seq<Conn>)
      requires Valid() && inputs.newToken != "" && inputs.decoy.plaintext != ""
      modifies room`peers, room`msgCache, room`sent, db`challenges, db`tokens, this`rec
      ensures Enabled(old(At()), Receive(c, size, message, inputs.(order := order)))
      ensures forall d :: d in order ==> d in old(room.peers)
      ensures At() == RoomState.OnMessage(cfg, old(At()), c, size, message, inputs.(order := order)) && Valid()
    {
      hide RoomRuns.Reachable, RoomState.OnMessage, RoomRuns.Good, Enabled;
      ghost var w := At();
      RoomRuns.ReachableGood(cfg, w);
      RoomRuns.IndexOfGood(cfg, w);
      order := Handle(c, size, message, inputs);
      RoomRuns.ReachableStep(cfg, w, Receive(c, size, message, inputs.(order := order)));
    }

    method Handle(c: Conn, size: int, message: Option<Message>, inputs: Inputs) returns (ghost order: seq<Conn>)
      requires IndexInv(room.At())
      modifies room`peers, room`msgCache, room`sent, db`challenges, db`tokens, this`rec
      ensures inputs.newToken != "" && inputs.decoy.plaintext != "" ==>
                Enabled(old(At()), Receive(c, size, message, inputs.(order := order)))
      ensures forall d :: d in order ==> d in old(room.peers)
      ensures At() == RoomState.OnMessage(cfg, old(At()), c, size, message, inputs.(order := order))
    {
      hide Hello, Respond, Relay, Refuse;
      order := [];
      if c in room.peers {
        JoinedArePeers(room.At(), c);
        order := SomeOrder(JoinedIn(room.At(), room.peers[c].roomId) + {c});
      }
      if size > cfg.wsMaxPayloadBytes {
        room.SendText(c, Close("payload too large"));
        return;
      }
      if c !in room.peers {
        room.SendText(c, Close("no peer"));
        return;
      }
      if message.None? {
        room.SendText(c, Error("bad_frame"));
        return;
      }
      order := Dispatch(c, size, message.value, inputs, order);
    }

    method Dispatch(c: Conn, ghost size: int, m: Message, inputs: Inputs, ghost any: seq<Conn>)
        returns (ghost order: seq<Conn>)
      requires IndexInv(room.At()) && c in room.peers && size <= cfg.wsMaxPayloadBytes
      requires Enumerates(any, JoinedIn(room.At(), room.peers[c].roomId) + {c})
               && forall d :: d in any ==> d in room.peers
      modifies room`peers, room`msgCache, room`sent, db`challenges, db`tokens, this`rec
      ensures Enumerates(order, JoinedIn(old(room.At()), old(room.peers)[c].roomId) + {c})
              && forall d :: d in order ==> d in old(room.peers)
      ensures At() == RoomState.OnMessage(cfg, old(At()), c, size, Some(m), inputs.(order := order))
    {
      hide Hello, Respond, Relay, Refuse;
      order := any;
      if !room.peers[c].joined {
        if m.kind == "hello" {
          order := OnHello(c, m.token, inputs);
        } else if m.kind == "challenge_response" {
          order := OnResponse(c, m.plaintext, inputs);
        } else {
          SendErrAndClose(c, "not_joined");
        }
      } else if m.kind == "msg" || m.kind == "presence" {
        RelaySame(cfg, At(), c, m.kind, m.payload, inputs, inputs.(order := order));
        OnRelay(c, m.kind, m.payload, inputs);
      } else if m.kind == "ping" {
        room.SendText(c, Pong);
      } else {
        SendErr(c, "unknown_type");
      }
    }

    method CreateRoom(id: Room, requiresPassword: bool)
      requires Valid() && id !in rec.quota
      modifies db`rooms, this`rec
      ensures At() == OnCreate(cfg, old(At()), id, requiresPassword) && Valid()
    {
      hide RoomRuns.Reachable;
      RoomRuns.ReachableStep(cfg, At(), Create(id, requiresPassword));
      var capacity := if cfg.maxParticipants < cfg.maxParticipantsCap then cfg.maxParticipants
          else cfg.maxParticipantsCap;
      var n := db.CountRooms();
      if cfg.totalRoomsCap > 0 && n >= cfg.totalRoomsCap {
        return;
      }
      var row := RoomRow(capacity, false, requiresPassword);
      var ok := db.CreateRoom(id, row);
      if ok {
        rec := rec.(quota := rec.quota[id := Required(row)]);
      }
    }

    method Activate(id: Room, pairs: seq<ChallengePair>)
      requires Valid()
      modifies db`rooms, db`challenges, db`nextId, this`rec
      ensures At() == OnActivate(cfg, old(At()), id, pairs) && Valid()
    {
      hide NewRows, RoomRuns.Reachable;
      RoomRuns.ReachableStep(cfg, At(), Event.Activate(id, pairs));
      var row := db.FindRoom(id);
      if row.None? || row.value.activated || |pairs| != Required(row.value) {
        return;
      }
      for i := 0 to |pairs|
        invariant forall j :: 0 <= j < i ==> GoodPair(cfg, pairs[j])
      {
        if !GoodPair(cfg, pairs[i]) {
          return;
        }
      }
      ghost var firstId := db.nextId;
      var ok := db.InsertChallenges(id, pairs);
      if !ok {
        return;
      }
      ok := db.ActivateRoom(id);
      if ok {
        rec := rec.(pool := rec.pool[id := IdsOf(rec.pool, id) + seq(|pairs|, i => firstId + i)]);
      }
    }

    /** Deleting a room needs one of its tokens. */
    method Delete(id: Room, token: string)
      requires Valid()
      modifies db`rooms, db`challenges, db`tokens, room`msgCache, room`sent, this`rec
      ensures At() == OnDelete(old(At()), id, token) && Valid()
    {
      hide RoomRuns.Reachable;
      if token == "" {
        return;
      }
      var owner := db.RoomForToken(token);
      if owner != Some(id) {
        return;
      }
      Purge(id);
    }

    /** What the purge thread does to an idle room. */
    method Purge(id: Room)
      requires Valid()
      modifies db`rooms, db`challenges, db`tokens, room`msgCache, room`sent, this`rec
      ensures At() == CloseAndDelete(old(At()), id) && Valid()
    {
      hide SendAll, RoomState.DeleteRoom, RoomRuns.Reachable;
      RoomRuns.ReachableStep(cfg, At(), Event.Purge(id));
      room.CloseRoom(id, Deleted);
      db.DeleteRoom(id);
      rec := rec.(erasedAt := rec.erasedAt[id := |Messages(rec, id)|]);
    }
  }

  lemma JoinedArePeers(ram: Ram, c: Conn)
    requires c in ram.peers
    ensures forall d :: d in JoinedIn(ram, ram.peers[c].roomId) + {c} ==> d in ram.peers
  {
  }

  lemma PendingCleared(ram: Ram, c: Conn)
    requires IndexInv(ram) && c in ram.peers
    ensures var ram' := RoomState.SetPending(ram, c, "", "");
            && IndexInv(ram') && ram'.peers.Keys == ram.peers.Keys && ram'.peers[c].roomId == ram.peers[c].roomId
            && JoinedIn(ram', ram.peers[c].roomId) == JoinedIn(ram, ram.peers[c].roomId)
  {
    var ram' := RoomState.SetPending(ram, c, "", "");
    assert SamePlaces(ram, ram');
    SamePlacesIndex(ram, ram');
    SamePlacesJoined(ram, ram', ram.peers[c].roomId);
  }

  /** Issuing a challenge does not depend on an order. */
  lemma IssueSame(w: World, c: Conn, inputs: Inputs, inputs': Inputs)
    requires c in w.ram.peers && inputs' == inputs.(order := inputs'.order)
    ensures RoomState.IssueChallenge(w, c, inputs) == RoomState.IssueChallenge(w, c, inputs')
  {
    hide JoinedIn, FirstUnused, SendTo, MarkUsed;
  }

  lemma RelaySame(cfg: Config, w: World, c: Conn, kind: string, payload: string, inputs: Inputs, inputs': Inputs)
    requires c in w.ram.peers && inputs' == inputs.(order := inputs'.order)
    ensures Relay(cfg, w, c, kind, payload, inputs) == Relay(cfg, w, c, kind, payload, inputs')
  {
    hide RoomState.Broadcast, AppendCached, SendTo, Messages;
  }

  /** The cache does not matter to who is sent a frame. */
  lemma SameBroadcast(ram: Ram, sent: Sent, roomId: Room, m: CachedMessage, size: int, f: Frame)
    ensures RoomState.Broadcast(AppendCached(ram, roomId, m, size), sent, roomId, f, {})
            == RoomState.Broadcast(ram, sent, roomId, f, {})
  {
    hide SendAll, LastOf;
    assert JoinedIn(AppendCached(ram, roomId, m, size), roomId) == JoinedIn(ram, roomId);
  }
}
