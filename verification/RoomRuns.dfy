/** Every run of the chat server: what its handlers keep, and what follows for its connections. */
module RoomRuns {
  import opened Basics
  import opened RoomState
  import opened RoomInvariants
  import opened RoomPool

  /** A peer id that comes from a token once recorded for a room. */
  ghost predicate FromToken(rec: Records, room: Room, peerId: string) {
    exists t :: (t, room) in rec.tokens && peerId == PeerIdFromToken(t)
  }

  ghost predicate TokenInv(ram: Ram, tokens: map<string, Room>, rec: Records) {
    && (forall t :: t in tokens ==> (t, tokens[t]) in rec.tokens)
    && (forall c :: TokenOk(ram, rec, c))
  }

  ghost predicate TokenOk(ram: Ram, rec: Records, c: Conn) {
    IsJoined(ram, c) ==> FromToken(rec, ram.peers[c].roomId, ram.peers[c].peerId)
  }

  /** A connection opens once, and departs at most once. */
  ghost predicate DepartInv(ram: Ram, rec: Records) {
    forall c :: DepartOk(ram, rec, c)
  }

  ghost predicate DepartOk(ram: Ram, rec: Records, c: Conn) {
    && (c in ram.peers ==> c in rec.connected && c !in rec.departed)
    && (c in rec.departed ==> c in rec.connected)
  }

  /** The pending token and the expected answer are both empty or both not. */
  ghost predicate PendingInv(ram: Ram, db: Db) {
    && (forall c :: c in ram.peers ==> (ram.peers[c].pendingToken == "" <==> ram.peers[c].expectedPlaintext == ""))
    && (forall i :: 0 <= i < |db.challenges| ==> db.challenges[i].pair.plaintext != "")
  }

  ghost predicate Good(cfg: Config, w: World) {
    && IndexInv(w.ram) && MembersInv(w.ram, w.sent) && HistoryInv(w.ram, w.sent, w.rec) && CacheInv(cfg, w.ram, w.rec)
    && TokenInv(w.ram, w.db.tokens, w.rec) && DepartInv(w.ram, w.rec) && PendingInv(w.ram, w.db) && PoolInv(w)
  }

  lemma StartGood(cfg: Config)
    ensures Good(cfg, START)
  {
    forall r ensures CacheOk(cfg, START.ram, START.rec, r) {
    }
    forall r ensures PoolOk(START.db, START.rec, r) {
    }
  }

  // ---------- small steps ----------

  /** Sending frames that are neither about members nor messages. */
  lemma KeepsQuiet(cfg: Config, w: World, sent: Sent)
    requires Good(cfg, w) && Quiet(w.sent, sent)
    ensures Good(cfg, w.(sent := sent))
  {
    hide Quiet, MembersInv, HistoryInv, IndexInv, TokenInv, DepartInv, PendingInv, CacheInv;
    MembersQuiet(w.ram, w.ram, w.sent, sent);
    HistoryQuiet(w.ram, w.ram, w.sent, sent, w.rec, w.rec);
    PoolSame(w, w.(sent := sent));
  }

  lemma KeepsSend(cfg: Config, w: World, c: Conn, f: Frame)
    requires Good(cfg, w) && Neutral(f)
    ensures Good(cfg, SendTo(w, c, f))
  {
    hide Good;
    SendQuiet(w.sent, c, f);
    KeepsQuiet(cfg, w, Send(w.sent, c, f));
  }

  lemma KeepsRefuse(cfg: Config, w: World, c: Conn, code: string)
    requires Good(cfg, w)
    ensures Good(cfg, Refuse(w, c, code))
  {
    hide Good;
    KeepsSend(cfg, w, c, Error(code));
    KeepsSend(cfg, SendTo(w, c, Error(code)), c, Close(code));
  }

  lemma SendFrame(w: World, c: Conn, f: Frame)
    ensures var w' := SendTo(w, c, f); w'.ram == w.ram && w'.db == w.db && w'.rec == w.rec
    ensures forall d :: d != c ==> LogOf(SendTo(w, c, f).sent, d) == LogOf(w.sent, d)
  {
  }

  lemma RefuseFrame(w: World, c: Conn, code: string)
    ensures var w' := Refuse(w, c, code); w'.ram == w.ram && w'.db == w.db && w'.rec == w.rec
    ensures forall d :: d != c ==> LogOf(Refuse(w, c, code).sent, d) == LogOf(w.sent, d)
  {
    SendFrame(w, c, Error(code));
    SendFrame(SendTo(w, c, Error(code)), c, Close(code));
    hide SendTo;
  }

  /** A right answer, with its token recorded and its challenge closed, before the connection joins. */
  function Answered(w: World, c: Conn): World
    requires c in w.ram.peers
  {
    var p := w.ram.peers[c];
    var db := InsertToken(w.db, p.pendingToken, p.roomId);
    World(SetPending(w.ram, c, "", ""), if db.Some? then db.value else w.db, w.sent,
        Redeem(w, c, p.pendingToken, p.roomId))
  }

  /** Whether an answer is right, and its token can be recorded. */
  predicate IsRight(w: World, c: Conn, answer: string)
    requires c in w.ram.peers
  {
    var p := w.ram.peers[c];
    && p.pendingToken != "" && p.expectedPlaintext != "" && answer == p.expectedPlaintext
    && p.pendingToken !in w.db.tokens && p.roomId in w.db.rooms
  }

  lemma RespondRight(w: World, c: Conn, answer: string, inputs: Inputs)
    requires c in w.ram.peers && IsRight(w, c, answer) && forall d :: d in inputs.order ==> d in w.ram.peers
    ensures c in Answered(w, c).ram.peers && forall d :: d in inputs.order ==> d in Answered(w, c).ram.peers
    ensures Respond(w, c, answer, inputs)
            == FinalizeJoin(Answered(w, c), c, w.ram.peers[c].pendingToken, true, inputs.order)
  {
    AnsweredIs(w, c);
    hide Refuse, FinalizeJoin, Redeem, Answered, SetPending;
  }

  lemma RespondWrong(w: World, c: Conn, answer: string, inputs: Inputs)
    requires c in w.ram.peers && !IsRight(w, c, answer) && forall d :: d in inputs.order ==> d in w.ram.peers
    ensures var w' := Respond(w, c, answer, inputs);
            && w'.db == w.db && w'.rec == w.rec && (w'.ram == w.ram || w'.ram == SetPending(w.ram, c, "", ""))
            && forall d :: d != c ==> LogOf(w'.sent, d) == LogOf(w.sent, d)
  {
    var w1 := w.(ram := SetPending(w.ram, c, "", ""));
    RefuseFrame(w, c, "no_challenge");
    RefuseFrame(w1, c, "invalid_key");
    RefuseFrame(w1, c, "internal");
    hide Refuse, FinalizeJoin, Redeem, SetPending;
  }

  /** The two outcomes of an answer. */
  lemma RespondCases(w: World, c: Conn, answer: string, inputs: Inputs)
    requires c in w.ram.peers && forall d :: d in inputs.order ==> d in w.ram.peers
    ensures c in Answered(w, c).ram.peers && forall d :: d in inputs.order ==> d in Answered(w, c).ram.peers
    ensures var w', p := Respond(w, c, answer, inputs), w.ram.peers[c];
            if IsRight(w, c, answer) then w' == FinalizeJoin(Answered(w, c), c, p.pendingToken, true, inputs.order)
            else
              && w'.db == w.db && w'.rec == w.rec && (w'.ram == w.ram || w'.ram == SetPending(w.ram, c, "", ""))
              && forall d :: d != c ==> LogOf(w'.sent, d) == LogOf(w.sent, d)
  {
    AnsweredIs(w, c);
    hide *;
    if IsRight(w, c, answer) {
      RespondRight(w, c, answer, inputs);
    } else {
      RespondWrong(w, c, answer, inputs);
    }
  }

  lemma AnsweredIs(w: World, c: Conn)
    requires c in w.ram.peers
    ensures var p := w.ram.peers[c];
            InsertToken(w.db, p.pendingToken, p.roomId).Some? ==>
              Answered(w, c) == w.(ram := SetPending(w.ram, c, "", ""))
                                 .(db := InsertToken(w.db, p.pendingToken, p.roomId).value,
                                     rec := Redeem(w, c, p.pendingToken, p.roomId))
    ensures forall d :: d in w.ram.peers <==> d in Answered(w, c).ram.peers
  {
    hide Redeem;
  }

  /** A peer's pending challenge changes, and nothing about where it is. */
  lemma PendingPlaces(ram: Ram, c: Conn, token: string, plaintext: string)
    requires c in ram.peers
    ensures SamePlaces(ram, SetPending(ram, c, token, plaintext))
  {
  }

  lemma QuietRefl(sent: Sent)
    ensures Quiet(sent, sent)
  {
  }

  lemma PlacesKeep(cfg: Config, a: Ram, b: Ram, sent: Sent, rec: Records, rec': Records)
    requires IndexInv(a) && MembersInv(a, sent) && HistoryInv(a, sent, rec) && CacheInv(cfg, a, rec)
             && DepartInv(a, rec)
    requires SamePlaces(a, b) && a.msgCache == b.msgCache
    requires rec'.messages == rec.messages && rec'.start == rec.start && rec'.erasedAt == rec.erasedAt
    requires rec'.connected == rec.connected && rec'.departed == rec.departed
    ensures IndexInv(b) && MembersInv(b, sent) && HistoryInv(b, sent, rec') && CacheInv(cfg, b, rec')
            && DepartInv(b, rec')
  {
    QuietRefl(sent);
    DepartPlaces(a, b, rec, rec');
    hide SamePlaces, IndexInv, MembersInv, HistoryInv, CacheInv, DepartInv, Quiet;
    SamePlacesIndex(a, b);
    MembersQuiet(a, b, sent, sent);
    HistoryQuiet(a, b, sent, sent, rec, rec');
    CacheSame(cfg, a, b, rec, rec');
  }

  lemma TokenPlaces(a: Ram, b: Ram, tokens: map<string, Room>, rec: Records, rec': Records)
    requires TokenInv(a, tokens, rec) && SamePlaces(a, b) && rec'.tokens == rec.tokens
    ensures TokenInv(b, tokens, rec')
  {
    forall c ensures TokenOk(b, rec', c) {
      assert TokenOk(a, rec, c);
      if c in a.peers {
        assert Place(a.peers[c]) == Place(b.peers[c]);
      }
    }
  }

  lemma DepartPlaces(a: Ram, b: Ram, rec: Records, rec': Records)
    requires DepartInv(a, rec) && SamePlaces(a, b) && rec'.connected == rec.connected
             && rec'.departed == rec.departed
    ensures DepartInv(b, rec')
  {
    forall c ensures DepartOk(b, rec', c) {
      assert DepartOk(a, rec, c);
    }
  }

  // ---------- connections ----------

  lemma KeepsAccept(cfg: Config, w: World, c: Conn, room: Room, peerId: string)
    requires Good(cfg, w) && c !in w.rec.connected
    ensures Good(cfg, OnAccept(w, c, room, peerId))
  {
    var w' := OnAccept(w, c, room, peerId);
    assert DepartOk(w.ram, w.rec, c);
    AddPeerIndex(w.ram, c, room, peerId);
    MembersAccept(w.ram, w.sent, c, room, peerId);
    HistoryAccept(w, c, room, peerId);
    CacheSame(cfg, w.ram, w'.ram, w.rec, w'.rec);
    TokenAccept(w, c, room, peerId);
    DepartAccept(w, c, room, peerId);
    PoolSame(w, w');
    hide IndexInv, MembersInv, HistoryInv, CacheInv, TokenInv, PoolInv, DepartInv;
  }

  lemma HistoryAccept(w: World, c: Conn, room: Room, peerId: string)
    requires HistoryInv(w.ram, w.sent, w.rec) && c !in w.ram.peers
    ensures var w' := OnAccept(w, c, room, peerId); HistoryInv(w'.ram, w'.sent, w'.rec)
  {
    var w' := OnAccept(w, c, room, peerId);
    hide Received, IsSuffix;
    forall d ensures HistoryOk(w'.ram, w'.sent, w'.rec, d) {
      assert HistoryOk(w.ram, w.sent, w.rec, d);
    }
  }

  lemma TokenAccept(w: World, c: Conn, room: Room, peerId: string)
    requires TokenInv(w.ram, w.db.tokens, w.rec) && c !in w.ram.peers
    ensures var w' := OnAccept(w, c, room, peerId); TokenInv(w'.ram, w'.db.tokens, w'.rec)
  {
    var w' := OnAccept(w, c, room, peerId);
    forall d ensures TokenOk(w'.ram, w'.rec, d) {
      assert TokenOk(w.ram, w.rec, d);
    }
  }

  lemma DepartAccept(w: World, c: Conn, room: Room, peerId: string)
    requires DepartInv(w.ram, w.rec) && c !in w.rec.connected
    ensures var w' := OnAccept(w, c, room, peerId); DepartInv(w'.ram, w'.rec)
  {
    var w' := OnAccept(w, c, room, peerId);
    forall d ensures DepartOk(w'.ram, w'.rec, d) {
      assert DepartOk(w.ram, w.rec, d);
    }
  }

  lemma HistoryClose(w: World, c: Conn)
    requires IndexInv(w.ram) && HistoryInv(w.ram, w.sent, w.rec) && c in w.ram.peers
    ensures var w' := OnClose(w, c); HistoryInv(w'.ram, w'.sent, w'.rec)
  {
    var w' := OnClose(w, c);
    hide OnClose, HistoryOk, IndexInv;
    forall d ensures HistoryOk(w'.ram, w'.sent, w'.rec, d) {
      assert HistoryOk(w.ram, w.sent, w.rec, d);
      HistoryCloseAt(w, c, d);
    }
  }

  lemma HistoryCloseAt(w: World, c: Conn, d: Conn)
    requires c in w.ram.peers && HistoryOk(w.ram, w.sent, w.rec, d)
    ensures var w' := OnClose(w, c); HistoryOk(w'.ram, w'.sent, w'.rec, d)
  {
    hide OnClose, RemovePeer, JoinedIn, SendAll, LogOf, HistoryOk, Received;
    var w', p := OnClose(w, c), w.ram.peers[c];
    var f, targets := PeerLeave(p.peerId), JoinedIn(w'.ram, p.roomId);
    CloseSends(w, c);
    OthersUntouched(w.ram, c);
    SendAllLogs(w.sent, targets, f);
    LogGrows(LogOf(w.sent, d), f);
    HistoryStays(w, w', d);
  }

  /** What closing sends. */
  lemma CloseSends(w: World, c: Conn)
    requires c in w.ram.peers
    ensures var w', p := OnClose(w, c), w.ram.peers[c];
            && w'.ram == RemovePeer(w.ram, c) && w'.rec.messages == w.rec.messages && w'.rec.start == w.rec.start
            && w'.sent == if p.joined then SendAll(w.sent, JoinedIn(w'.ram, p.roomId), PeerLeave(p.peerId)) else w.sent
  {
    hide SendAll, RemovePeer, JoinedIn;
    var ram, p := RemovePeer(w.ram, c), w.ram.peers[c];
    assert JoinedIn(ram, p.roomId) - {} == JoinedIn(ram, p.roomId);
  }

  /** A connection that stays where it is, and receives no message. */
  lemma HistoryStays(w: World, w': World, d: Conn)
    requires HistoryOk(w.ram, w.sent, w.rec, d)
    requires w'.rec.messages == w.rec.messages && w'.rec.start == w.rec.start
    requires d in w'.ram.peers ==> d in w.ram.peers && w'.ram.peers[d] == w.ram.peers[d]
    requires Received(LogOf(w'.sent, d)) == Received(LogOf(w.sent, d))
    ensures HistoryOk(w'.ram, w'.sent, w'.rec, d)
  {
    hide Received, LogOf;
  }

  lemma TokenClose(w: World, c: Conn)
    requires TokenInv(w.ram, w.db.tokens, w.rec) && c in w.ram.peers
    ensures var w' := OnClose(w, c); TokenInv(w'.ram, w'.db.tokens, w'.rec)
  {
    var w' := OnClose(w, c);
    forall d ensures TokenOk(w'.ram, w'.rec, d) {
      assert TokenOk(w.ram, w.rec, d);
    }
  }

  lemma DepartClose(w: World, c: Conn)
    requires DepartInv(w.ram, w.rec) && c in w.ram.peers
    ensures var w' := OnClose(w, c); DepartInv(w'.ram, w'.rec)
  {
    var w' := OnClose(w, c);
    assert DepartOk(w.ram, w.rec, c);
    forall d ensures DepartOk(w'.ram, w'.rec, d) {
      assert DepartOk(w.ram, w.rec, d);
    }
  }

  lemma OthersUntouched(ram: Ram, c: Conn)
    requires c in ram.peers
    ensures RemovePeer(ram, c).msgCache == ram.msgCache && RemovePeer(ram, c).peers == ram.peers - {c}
  {
  }

  lemma KeepsClose(cfg: Config, w: World, c: Conn)
    requires Good(cfg, w)
    ensures Good(cfg, OnClose(w, c))
  {
    if c in w.ram.peers {
      var w' := OnClose(w, c);
      hide IndexInv, MembersInv, HistoryInv, CacheInv, TokenInv, PoolInv, Broadcast, DepartInv, RemovePeer;
      OthersUntouched(w.ram, c);
      RemovePeerIndex(w.ram, c);
      MembersClose(w.ram, w.sent, c);
      HistoryClose(w, c);
      CacheSame(cfg, w.ram, w'.ram, w.rec, w'.rec);
      TokenClose(w, c);
      DepartClose(w, c);
      PoolSame(w, w');
    }
  }

  // ---------- joining ----------

  /** The joiner's history is the end of its room's messages. */
  lemma HistoryJoins(cfg: Config, ram: Ram, rec: Records, room: Room)
    requires CacheInv(cfg, ram, rec)
    ensures var all, history := Messages(rec, room), Recent(ram, room);
            && |history| <= |all| && IsSuffix(Items(history), all, |all| - |history|)
            && |history| == Min(CacheSize(cfg), |all| - ErasedAt(rec, room)) && ErasedAt(rec, room) <= |all|
  {
    assert CacheOk(cfg, ram, rec, room);
    var all := Messages(rec, room);
    var since := all[ErasedAt(rec, room)..];
    assert |Items(Recent(ram, room))| == |Recent(ram, room)|;
    hide Items;
  }

  function Min(a: int, b: int): int {
    if a < b then a else b
  }

  lemma HistoryJoin(cfg: Config, w: World, c: Conn, token: string, isFresh: bool, order: seq<Conn>)
    requires HistoryInv(w.ram, w.sent, w.rec) && CacheInv(cfg, w.ram, w.rec)
    requires c in w.ram.peers && !w.ram.peers[c].joined && forall d :: d in order ==> d in w.ram.peers
    ensures var w' := FinalizeJoin(w, c, token, isFresh, order); HistoryInv(w'.ram, w'.sent, w'.rec)
  {
    var w', room, id := FinalizeJoin(w, c, token, isFresh, order), w.ram.peers[c].roomId, PeerIdFromToken(token);
    var history := Recent(w.ram, room);
    hide PeerIdFromToken;
    var joined := Joined(id, if isFresh then Some(token) else None, history, PeerIds(w'.ram, order));
    HistoryJoins(cfg, w.ram, w.rec, room);
    SendLogs(w.sent, c, joined);
    SendAllLogs(Send(w.sent, c, joined), JoinedIn(w'.ram, room) - {c}, PeerJoin(id));
    hide SendAll, Send, PeerIds, CacheInv, HistoryOk, LogOf;
    forall d ensures HistoryOk(w'.ram, w'.sent, w'.rec, d) {
      assert HistoryOk(w.ram, w.sent, w.rec, d);
      if d == c {
        JoinerHistory(w', c, LogOf(w.sent, c), joined, w.rec);
      } else {
        OtherHistory(w, w', c, d, id);
      }
    }
  }

  lemma JoinerHistory(w': World, c: Conn, log: seq<Frame>, joined: Frame, rec: Records)
    requires c in w'.ram.peers && joined.Joined? && LogOf(w'.sent, c) == log + [joined]
    requires var all := Messages(w'.rec, w'.ram.peers[c].roomId);
             && |joined.history| <= |all| && IsSuffix(Items(joined.history), all, |all| - |joined.history|)
             && c in w'.rec.start && w'.rec.start[c] == |all| - |joined.history|
    ensures HistoryOk(w'.ram, w'.sent, w'.rec, c)
  {
    LogGrows(log, joined);
    hide Received, Items, IsSuffix;
  }

  lemma OtherHistory(w: World, w': World, c: Conn, d: Conn, id: string)
    requires HistoryOk(w.ram, w.sent, w.rec, d) && d != c
    requires w'.rec.messages == w.rec.messages && c in w'.rec.start && w'.rec.start == w.rec.start[c := w'.rec.start[c]]
    requires d in w.ram.peers <==> d in w'.ram.peers
    requires d in w.ram.peers ==> w'.ram.peers[d] == w.ram.peers[d]
    requires LogOf(w'.sent, d) == LogOf(w.sent, d) || LogOf(w'.sent, d) == LogOf(w.sent, d) + [PeerJoin(id)]
    ensures HistoryOk(w'.ram, w'.sent, w'.rec, d)
  {
    LogGrows(LogOf(w.sent, d), PeerJoin(id));
    hide Received, IsSuffix;
  }

  lemma TokenJoin(w: World, c: Conn, token: string, isFresh: bool, order: seq<Conn>)
    requires TokenInv(w.ram, w.db.tokens, w.rec) && c in w.ram.peers && forall d :: d in order ==> d in w.ram.peers
    requires (token, w.ram.peers[c].roomId) in w.rec.tokens
    ensures var w' := FinalizeJoin(w, c, token, isFresh, order); TokenInv(w'.ram, w'.db.tokens, w'.rec)
  {
    hide PeerIdFromToken;
    var w' := FinalizeJoin(w, c, token, isFresh, order);
    forall d ensures TokenOk(w'.ram, w'.rec, d) {
      assert TokenOk(w.ram, w.rec, d);
      if d == c {
        assert FromToken(w'.rec, w.ram.peers[c].roomId, PeerIdFromToken(token));
      }
    }
  }

  lemma DepartJoin(w: World, c: Conn, token: string, isFresh: bool, order: seq<Conn>)
    requires DepartInv(w.ram, w.rec) && c in w.ram.peers && forall d :: d in order ==> d in w.ram.peers
    ensures var w' := FinalizeJoin(w, c, token, isFresh, order); DepartInv(w'.ram, w'.rec)
  {
    hide PeerIdFromToken;
    var w' := FinalizeJoin(w, c, token, isFresh, order);
    forall d ensures DepartOk(w'.ram, w'.rec, d) {
      assert DepartOk(w.ram, w.rec, d);
    }
  }

  /** What finalizing a join leaves alone. */
  lemma JoinFrame(w: World, c: Conn, token: string, isFresh: bool, order: seq<Conn>)
    requires c in w.ram.peers && forall d :: d in order ==> d in w.ram.peers
    ensures var w' := FinalizeJoin(w, c, token, isFresh, order);
            && w'.db == w.db && w'.ram == MarkJoined(w.ram, c, PeerIdFromToken(token))
            && w'.ram.peers.Keys == w.ram.peers.Keys && w'.ram.msgCache == w.ram.msgCache
            && w'.rec == w.rec.(start := w'.rec.start)
            && (forall d :: Open(w'.ram, w'.rec, d) ==>
                Open(w.ram, w.rec, d) && w'.ram.peers[d].roomId == w.ram.peers[d].roomId)
            && (PendingInv(w.ram, w.db) ==> PendingInv(w'.ram, w'.db))
    ensures var w', id, room := FinalizeJoin(w, c, token, isFresh, order), PeerIdFromToken(token),
            w.ram.peers[c].roomId;
            exists f: Frame :: f.Joined? && f.members == PeerIds(w'.ram, order)
                            && w'.sent == Broadcast(w'.ram, Send(w.sent, c, f), room, PeerJoin(id), {c})
  {
    hide PeerIdFromToken, Broadcast, Send;
    var w', id := FinalizeJoin(w, c, token, isFresh, order), PeerIdFromToken(token);
    var f := Joined(id, if isFresh then Some(token) else None, Recent(w.ram, w.ram.peers[c].roomId),
        PeerIds(w'.ram, order));
    assert f.Joined? && w'.sent == Broadcast(w'.ram, Send(w.sent, c, f), w.ram.peers[c].roomId, PeerJoin(id), {c});
  }

  lemma KeepsJoin(cfg: Config, w: World, c: Conn, token: string, isFresh: bool, order: seq<Conn>)
    requires Good(cfg, w) && c in w.ram.peers && !w.ram.peers[c].joined
    requires Enumerates(order, JoinedIn(w.ram, w.ram.peers[c].roomId) + {c})
             && forall d :: d in order ==> d in w.ram.peers
    requires (token, w.ram.peers[c].roomId) in w.rec.tokens
    ensures Good(cfg, FinalizeJoin(w, c, token, isFresh, order))
  {
    hide FinalizeJoin, IndexInv, MembersInv, HistoryInv, CacheInv, TokenInv, PoolInv, DepartInv, PendingInv, MarkJoined,
        PeerIdFromToken;
    hide Broadcast, Send, PeerIds, Enumerates, Open;
    var w', id := FinalizeJoin(w, c, token, isFresh, order), PeerIdFromToken(token);
    JoinFrame(w, c, token, isFresh, order);
    var f: Frame :| f.Joined? && f.members == PeerIds(w'.ram, order)
                    && w'.sent == Broadcast(w'.ram, Send(w.sent, c, f), w.ram.peers[c].roomId, PeerJoin(id), {c});
    MarkJoinedIndex(w.ram, c, id);
    MembersJoin(w.ram, w.sent, c, id, order, f);
    HistoryJoin(cfg, w, c, token, isFresh, order);
    CacheSame(cfg, w.ram, w'.ram, w.rec, w'.rec);
    TokenJoin(w, c, token, isFresh, order);
    DepartJoin(w, c, token, isFresh, order);
    PoolSame(w, w');
  }

  // ---------- challenges ----------

  /** A peer's pending challenge and the tables change; everything told to the connections stays. */
  lemma KeepsPending(cfg: Config, w: World, w': World, c: Conn)
    requires Good(cfg, w) && SamePlaces(w.ram, w'.ram) && w'.ram.msgCache == w.ram.msgCache && w'.sent == w.sent
    requires w'.rec.messages == w.rec.messages && w'.rec.start == w.rec.start && w'.rec.erasedAt == w.rec.erasedAt
    requires w'.rec.connected == w.rec.connected && w'.rec.departed == w.rec.departed
    requires TokenInv(w'.ram, w'.db.tokens, w'.rec) && PendingInv(w'.ram, w'.db) && PoolInv(w')
    ensures Good(cfg, w')
  {
    hide SamePlaces, IndexInv, MembersInv, HistoryInv, CacheInv, TokenInv, DepartInv, PendingInv, PoolInv;
    PlacesKeep(cfg, w.ram, w'.ram, w.sent, w.rec, w'.rec);
  }

  lemma PendingSet(ram: Ram, db: Db, db': Db, c: Conn, token: string, plaintext: string)
    requires PendingInv(ram, db) && c in ram.peers && (token == "" <==> plaintext == "")
    requires |db'.challenges| == |db.challenges|
             && forall i :: 0 <= i < |db.challenges| ==> db'.challenges[i].pair == db.challenges[i].pair
    ensures PendingInv(SetPending(ram, c, token, plaintext), db')
  {
  }

  lemma KeepsDecoy(cfg: Config, w: World, c: Conn, token: string, plaintext: string)
    requires Good(cfg, w) && c in w.ram.peers && token != "" && plaintext != ""
    ensures Good(cfg, w.(ram := SetPending(w.ram, c, token, plaintext), rec := w.rec.(origin := w.rec.origin - {c})))
  {
    var w' := w.(ram := SetPending(w.ram, c, token, plaintext), rec := w.rec.(origin := w.rec.origin - {c}));
    PendingSet(w.ram, w.db, w.db, c, token, plaintext);
    PendingPlaces(w.ram, c, token, plaintext);
    PoolDecoy(w, w', c);
    hide PoolInv, PendingInv, SamePlaces, TokenInv;
    TokenPlaces(w.ram, w'.ram, w.db.tokens, w.rec, w'.rec);
    KeepsPending(cfg, w, w', c);
  }

  lemma KeepsHandOut(cfg: Config, w: World, c: Conn, token: string, i: nat, w': World)
    requires Good(cfg, w) && c in w.ram.peers && token != ""
    requires var room := w.ram.peers[c].roomId; room in w.db.rooms && FirstUnused(w.db.challenges, room) == Some(i)
    requires var id, room := w.db.challenges[i].id, w.ram.peers[c].roomId;
             w' == w.(ram := SetPending(w.ram, c, token, w.db.challenges[i].pair.plaintext), db := MarkUsed(w.db, i),
                      rec := w.rec.(origin := w.rec.origin[c := id],
                          handedOut := w.rec.handedOut[room := IdsOf(w.rec.handedOut, room) + [id]]))
    ensures Good(cfg, w')
  {
    var plaintext := w.db.challenges[i].pair.plaintext;
    PendingSet(w.ram, w.db, w'.db, c, token, plaintext);
    PendingPlaces(w.ram, c, token, plaintext);
    assert HandsOut(w, w', c, w.ram.peers[c].roomId, i);
    PoolHandOut(w, w', c, w.ram.peers[c].roomId, i);
    hide PoolInv, PendingInv, SamePlaces, HandsOut, TokenInv;
    TokenPlaces(w.ram, w'.ram, w.db.tokens, w.rec, w'.rec);
    KeepsPending(cfg, w, w', c);
  }

  lemma KeepsIssue(cfg: Config, w: World, c: Conn, inputs: Inputs)
    requires Good(cfg, w) && c in w.ram.peers && inputs.newToken != "" && inputs.decoy.plaintext != ""
    ensures Good(cfg, IssueChallenge(w, c, inputs))
  {
    var room := w.ram.peers[c].roomId;
    var next :=
      if room !in w.db.rooms || |JoinedIn(w.ram, room)| >= w.db.rooms[room].maxParticipants then None
      else FirstUnused(w.db.challenges, room);
    hide Good, FirstUnused;
    if next.None? {
      var w1 := w.(ram := SetPending(w.ram, c, inputs.newToken, inputs.decoy.plaintext),
          rec := w.rec.(origin := w.rec.origin - {c}));
      KeepsDecoy(cfg, w, c, inputs.newToken, inputs.decoy.plaintext);
      KeepsSend(cfg, w1, c, Challenge(inputs.decoy.ciphertext, inputs.decoy.nonce));
      assert IssueChallenge(w, c, inputs) == SendTo(w1, c, Challenge(inputs.decoy.ciphertext, inputs.decoy.nonce));
    } else {
      var id, pair := w.db.challenges[next.value].id, w.db.challenges[next.value].pair;
      var w1 := w.(ram := SetPending(w.ram, c, inputs.newToken, pair.plaintext), db := MarkUsed(w.db, next.value),
                   rec := w.rec.(origin := w.rec.origin[c := id],
                       handedOut := w.rec.handedOut[room := IdsOf(w.rec.handedOut, room) + [id]]));
      KeepsHandOut(cfg, w, c, inputs.newToken, next.value, w1);
      KeepsSend(cfg, w1, c, Challenge(pair.ciphertext, pair.nonce));
      assert IssueChallenge(w, c, inputs) == SendTo(w1, c, Challenge(pair.ciphertext, pair.nonce));
    }
  }

  lemma KeepsHello(cfg: Config, w: World, c: Conn, token: string, inputs: Inputs)
    requires Good(cfg, w) && c in w.ram.peers && !w.ram.peers[c].joined && Enabled(w, Receive(c, 0, None, inputs))
    requires forall d :: d in inputs.order ==> d in w.ram.peers
    ensures Good(cfg, Hello(w, c, token, inputs))
  {
    if token == "" {
      KeepsIssue(cfg, w, c, inputs);
    } else if token in w.db.tokens && w.db.tokens[token] == w.ram.peers[c].roomId {
      assert TokenInv(w.ram, w.db.tokens, w.rec);
      hide Good, FinalizeJoin;
      KeepsJoin(cfg, w, c, token, false, inputs.order);
    } else {
      KeepsRefuse(cfg, w, c, "invalid_key");
    }
  }

  /** The challenge of a connection is closed, whether or not it was answered. */
  lemma KeepsClosing(cfg: Config, w: World, c: Conn)
    requires Good(cfg, w) && c in w.ram.peers
    ensures Good(cfg, w.(ram := SetPending(w.ram, c, "", "")))
  {
    var w' := w.(ram := SetPending(w.ram, c, "", ""));
    PendingSet(w.ram, w.db, w.db, c, "", "");
    PendingPlaces(w.ram, c, "", "");
    PoolSame(w, w');
    hide PoolInv, PendingInv, SamePlaces, TokenInv;
    TokenPlaces(w.ram, w'.ram, w.db.tokens, w.rec, w'.rec);
    KeepsPending(cfg, w, w', c);
  }

  lemma TokenRecorded(ram: Ram, tokens: map<string, Room>, rec: Records, rec': Records, token: string, room: Room)
    requires TokenInv(ram, tokens, rec) && rec'.tokens == rec.tokens + {(token, room)}
    ensures TokenInv(ram, tokens[token := room], rec')
  {
    forall c ensures TokenOk(ram, rec', c) {
      assert TokenOk(ram, rec, c);
      if IsJoined(ram, c) {
        assert FromToken(rec, ram.peers[c].roomId, ram.peers[c].peerId);
      }
    }
  }

  /** A right answer: the token is recorded, the challenge is redeemed. */
  lemma KeepsRedeem(cfg: Config, w: World, c: Conn, db: Db, w': World)
    requires Good(cfg, w) && c in w.ram.peers && w.ram.peers[c].pendingToken != ""
    requires var p := w.ram.peers[c];
             && InsertToken(w.db, p.pendingToken, p.roomId) == Some(db)
             && w' == w.(ram := SetPending(w.ram, c, "", ""), db := db, rec := Redeem(w, c, p.pendingToken, p.roomId))
    ensures Good(cfg, w') && (w.ram.peers[c].pendingToken, w.ram.peers[c].roomId) in w'.rec.tokens
  {
    var p := w.ram.peers[c];
    PendingSet(w.ram, w.db, w'.db, c, "", "");
    PendingPlaces(w.ram, c, "", "");
    RedeemsIs(w, c, db, w');
    PoolRedeem(w, w', c, p.roomId);
    hide PoolInv, PendingInv, SamePlaces, Redeems, TokenInv, Redeem;
    TokenPlaces(w.ram, w'.ram, w.db.tokens, w.rec, w.rec);
    TokenRecorded(w'.ram, w.db.tokens, w.rec, w'.rec, p.pendingToken, p.roomId);
    KeepsPending(cfg, w, w', c);
  }

  lemma RedeemsIs(w: World, c: Conn, db: Db, w': World)
    requires c in w.ram.peers && w.ram.peers[c].pendingToken != ""
    requires var p := w.ram.peers[c];
             && InsertToken(w.db, p.pendingToken, p.roomId) == Some(db)
             && w' == w.(ram := SetPending(w.ram, c, "", ""), db := db, rec := Redeem(w, c, p.pendingToken, p.roomId))
    ensures Redeems(w, w', c, w.ram.peers[c].roomId)
    ensures w'.rec.tokens == w.rec.tokens + {(w.ram.peers[c].pendingToken, w.ram.peers[c].roomId)}
    ensures w'.rec == w.rec.(tokens := w'.rec.tokens, redeemed := w'.rec.redeemed, freshTokens := w'.rec.freshTokens,
                             decoysAnswered := w'.rec.decoysAnswered)
  {
  }

  lemma KeepsRespond(cfg: Config, w: World, c: Conn, answer: string, inputs: Inputs)
    requires Good(cfg, w) && c in w.ram.peers && !w.ram.peers[c].joined && Enabled(w, Receive(c, 0, None, inputs))
    requires forall d :: d in inputs.order ==> d in w.ram.peers
    ensures Good(cfg, Respond(w, c, answer, inputs))
  {
    hide Good;
    var p := w.ram.peers[c];
    var w1 := w.(ram := SetPending(w.ram, c, "", ""));
    KeepsClosing(cfg, w, c);
    if p.pendingToken == "" || p.expectedPlaintext == "" {
      KeepsRefuse(cfg, w, c, "no_challenge");
    } else if answer == "" || answer != p.expectedPlaintext {
      KeepsRefuse(cfg, w1, c, "invalid_key");
    } else if InsertToken(w.db, p.pendingToken, p.roomId).None? {
      KeepsRefuse(cfg, w1, c, "internal");
    } else {
      var db := InsertToken(w.db, p.pendingToken, p.roomId).value;
      var w2 := w1.(db := db, rec := Redeem(w, c, p.pendingToken, p.roomId));
      KeepsRedeem(cfg, w, c, db, w2);
      PendingPlaces(w.ram, c, "", "");
      SamePlacesJoined(w.ram, w2.ram, p.roomId);
      hide FinalizeJoin, Redeem, InsertToken;
      KeepsJoin(cfg, w2, c, p.pendingToken, true, inputs.order);
    }
  }

  // ---------- relaying ----------

  lemma KeepsRelay(cfg: Config, w: World, c: Conn, kind: string, payload: string, inputs: Inputs)
    requires Good(cfg, w) && c in w.ram.peers
    ensures Good(cfg, Relay(cfg, w, c, kind, payload, inputs))
  {
    var p := w.ram.peers[c];
    if payload == "" {
      KeepsSend(cfg, w, c, Error("bad_payload"));
    } else if |payload| > cfg.wsMaxPayloadBytes {
      KeepsSend(cfg, w, c, Error("payload_too_large"));
    } else if kind == "msg" {
      KeepsMsg(cfg, w, c, payload, inputs, Relay(cfg, w, c, kind, payload, inputs));
    } else {
      var f := Presence(p.peerId, payload, inputs.sentAt);
      SendAllQuiet(w.sent, JoinedIn(w.ram, p.roomId) - {c}, f);
      KeepsQuiet(cfg, w, Broadcast(w.ram, w.sent, p.roomId, f, {c}));
    }
  }

  lemma KeepsMsg(cfg: Config, w: World, c: Conn, payload: string, inputs: Inputs, w': World)
    requires Good(cfg, w) && c in w.ram.peers
    requires payload != "" && |payload| <= cfg.wsMaxPayloadBytes && w' == Relay(cfg, w, c, "msg", payload, inputs)
    ensures Good(cfg, w')
  {
    var p := w.ram.peers[c];
    var m := CachedMessage(p.peerId, payload, inputs.cachedAt);
    var f := Msg(p.peerId, payload, inputs.sentAt);
    MsgDeparts(w, w');
    PoolSame(w, w');
    assert SamePlaces(w.ram, w'.ram) && PendingInv(w'.ram, w'.db);
    hide IndexInv, MembersInv, HistoryInv, CacheInv, TokenInv, DepartInv, PendingInv, PoolInv, SamePlaces, Broadcast;
    SamePlacesIndex(w.ram, w'.ram);
    MembersRelay(w.ram, w'.ram, w.sent, p.roomId, f);
    HistoryRelay(w.ram, w'.ram, w.sent, p.roomId, f, w.rec, w'.rec);
    CacheRelay(cfg, w.ram, w.rec, p.roomId, m, w'.rec);
    TokenPlaces(w.ram, w'.ram, w.db.tokens, w.rec, w'.rec);
  }

  lemma MsgDeparts(w: World, w': World)
    requires DepartInv(w.ram, w.rec) && w'.ram.peers == w.ram.peers
    requires w'.rec.connected == w.rec.connected && w'.rec.departed == w.rec.departed
    ensures DepartInv(w'.ram, w'.rec)
  {
    forall d ensures DepartOk(w'.ram, w'.rec, d) {
      assert DepartOk(w.ram, w.rec, d);
    }
  }

  // ---------- rooms ----------

  lemma {:induction false} WithoutKeeps(rows: seq<ChallengeRow>, room: Room)
    requires forall i :: 0 <= i < |rows| ==> rows[i].pair.plaintext != ""
    ensures forall i :: 0 <= i < |Without(rows, room)| ==> Without(rows, room)[i].pair.plaintext != ""
  {
    if rows != [] {
      WithoutKeeps(rows[..|rows| - 1], room);
    }
  }

  lemma TokenDelete(ram: Ram, ram': Ram, db: Db, room: Room, rec: Records, rec': Records)
    requires TokenInv(ram, db.tokens, rec) && ram'.peers == ram.peers && rec'.tokens == rec.tokens
    ensures TokenInv(ram', DeleteRoom(db, room).tokens, rec')
  {
    hide Without;
    forall c ensures TokenOk(ram', rec', c) {
      assert TokenOk(ram, rec, c);
      if IsJoined(ram, c) {
        assert FromToken(rec, ram.peers[c].roomId, ram.peers[c].peerId);
      }
    }
  }

  lemma QuietTwice(a: Sent, b: Sent, c: Sent)
    requires Quiet(a, b) && Quiet(b, c)
    ensures Quiet(a, c)
  {
    forall d ensures View(LogOf(c, d)) == View(LogOf(a, d)) && Received(LogOf(c, d)) == Received(LogOf(a, d)) {
      assert View(LogOf(b, d)) == View(LogOf(a, d));
    }
  }

  /** Deleting a room, on request or because it was idle. */
  lemma KeepsDelete(cfg: Config, w: World, room: Room)
    requires Good(cfg, w)
    ensures Good(cfg, CloseAndDelete(w, room))
  {
    var w' := CloseAndDelete(w, room);
    var told := SendAll(w.sent, InRoom(w.ram, room), Deleted);
    SendAllQuiet(w.sent, InRoom(w.ram, room), Deleted);
    SendAllQuiet(told, InRoom(w.ram, room), Close("room deleted"));
    QuietTwice(w.sent, told, w'.sent);
    WithoutKeeps(w.db.challenges, room);
    TokenDelete(w.ram, w'.ram, w.db, room, w.rec, w'.rec);
    PoolDelete(w, w', room);
    DepartPlaces(w.ram, w'.ram, w.rec, w'.rec);
    assert PendingInv(w'.ram, w'.db);
    hide IndexInv, MembersInv, HistoryInv, CacheInv, TokenInv, DepartInv, PendingInv, PoolInv, Quiet, SendAll,
        DeleteRoom;
    assert SamePlaces(w.ram, w'.ram);
    hide SamePlaces;
    SamePlacesIndex(w.ram, w'.ram);
    MembersQuiet(w.ram, w'.ram, w.sent, w'.sent);
    HistoryQuiet(w.ram, w'.ram, w.sent, w'.sent, w.rec, w'.rec);
    CacheErased(cfg, w.ram, w.rec, room, w'.rec);
  }

  /** The tables change, and nothing that the connections are told. */
  lemma KeepsTables(cfg: Config, w: World, w': World)
    requires Good(cfg, w) && w'.ram == w.ram && w'.sent == w.sent && w'.db.tokens == w.db.tokens
    requires w'.rec.messages == w.rec.messages && w'.rec.start == w.rec.start && w'.rec.erasedAt == w.rec.erasedAt
    requires w'.rec.connected == w.rec.connected && w'.rec.departed == w.rec.departed
             && w'.rec.tokens == w.rec.tokens
    requires PendingInv(w'.ram, w'.db) && PoolInv(w')
    ensures Good(cfg, w')
  {
    assert SamePlaces(w.ram, w'.ram);
    hide IndexInv, MembersInv, HistoryInv, CacheInv, TokenInv, DepartInv, PendingInv, PoolInv, SamePlaces;
    TokenPlaces(w.ram, w'.ram, w.db.tokens, w.rec, w'.rec);
    KeepsPending(cfg, w, w', 0);
  }

  lemma KeepsCreate(cfg: Config, w: World, room: Room, requiresPassword: bool)
    requires Good(cfg, w) && room !in w.rec.quota
    ensures Good(cfg, OnCreate(cfg, w, room, requiresPassword))
  {
    var w' := OnCreate(cfg, w, room, requiresPassword);
    if w' != w {
      PoolCreate(w, w', room, w'.db.rooms[room]);
      assert PendingInv(w'.ram, w'.db);
      hide PoolInv, PendingInv;
      KeepsTables(cfg, w, w');
    }
  }

  lemma KeepsActivate(cfg: Config, w: World, room: Room, pairs: seq<ChallengePair>)
    requires Good(cfg, w)
    ensures Good(cfg, OnActivate(cfg, w, room, pairs))
  {
    var w' := OnActivate(cfg, w, room, pairs);
    if !(room !in w.db.rooms || w.db.rooms[room].activated || |pairs| != Required(w.db.rooms[room])
         || exists i :: 0 <= i < |pairs| && !GoodPair(cfg, pairs[i])) {
      assert Activates(w, w', room, pairs);
      PoolActivate(w, w', room, pairs);
      assert forall i :: 0 <= i < |pairs| ==> GoodPair(cfg, pairs[i]);
      assert PendingInv(w'.ram, w'.db);
      hide PoolInv, PendingInv;
      KeepsTables(cfg, w, w');
    }
  }

  // ---------- every step, every run ----------

  lemma KeepsMessage(cfg: Config, w: World, e: Event)
    requires Good(cfg, w) && Enabled(w, e) && e.Receive? && forall d :: d in e.inputs.order ==> d in w.ram.peers
    ensures Good(cfg, OnMessage(cfg, w, e.c, e.size, e.message, e.inputs))
  {
    hide Good, Hello, Respond, Relay;
    var c := e.c;
    assert Enabled(w, Receive(c, 0, None, e.inputs));
    if e.size > cfg.wsMaxPayloadBytes {
      KeepsSend(cfg, w, c, Close("payload too large"));
    } else if c !in w.ram.peers {
      KeepsSend(cfg, w, c, Close("no peer"));
    } else if e.message.None? {
      KeepsSend(cfg, w, c, Error("bad_frame"));
    } else {
      var m := e.message.value;
      if !w.ram.peers[c].joined {
        KeepsHello(cfg, w, c, m.token, e.inputs);
        KeepsRespond(cfg, w, c, m.plaintext, e.inputs);
        KeepsRefuse(cfg, w, c, "not_joined");
      } else {
        KeepsRelay(cfg, w, c, m.kind, m.payload, e.inputs);
        KeepsSend(cfg, w, c, Pong);
        KeepsSend(cfg, w, c, Error("unknown_type"));
      }
    }
  }

  /** Every handler keeps everything. */
  lemma StepKeeps(cfg: Config, w: World, e: Event)
    requires Good(cfg, w) && Enabled(w, e)
    ensures Good(cfg, Step(cfg, w, e))
  {
    hide Good, OnAccept, OnClose, OnMessage, OnCreate, OnActivate, CloseAndDelete;
    match e
    case Accept(c, room, peerId) => KeepsAccept(cfg, w, c, room, peerId);
    case Closed(c) => KeepsClose(cfg, w, c);
    case Receive(c, size, message, inputs) =>
      EnabledOrder(w, e);
      KeepsMessage(cfg, w, e);
    case Create(room, requiresPassword) => KeepsCreate(cfg, w, room, requiresPassword);
    case Activate(room, pairs) => KeepsActivate(cfg, w, room, pairs);
    case Delete(room, token) => KeepsDelete(cfg, w, room);
    case Purge(room) => KeepsDelete(cfg, w, room);
  }

  lemma {:induction false} RunKeeps(cfg: Config, w: World, es: seq<Event>, w': World)
    requires Good(cfg, w) && IsRun(cfg, w, es, w')
    ensures Good(cfg, w')
    decreases |es|
  {
    hide Good, Step, Enabled;
    if es != [] {
      StepKeeps(cfg, w, es[0]);
      RunKeeps(cfg, Step(cfg, w, es[0]), es[1..], w');
    }
  }

  ghost predicate Reachable(cfg: Config, w: World) {
    exists es: seq<Event> :: IsRun(cfg, START, es, w)
  }

  /** All of it holds in every reachable state. */
  lemma ReachableGood(cfg: Config, w: World)
    requires Reachable(cfg, w)
    ensures Good(cfg, w)
  {
    hide Good, IsRun;
    var es: seq<Event> :| IsRun(cfg, START, es, w);
    StartGood(cfg);
    RunKeeps(cfg, START, es, w);
  }

  lemma ReachableStart(cfg: Config)
    ensures Reachable(cfg, START)
  {
    assert IsRun(cfg, START, [], START);
  }

  lemma {:induction false} RunExtends(cfg: Config, w: World, es: seq<Event>, w': World, e: Event)
    requires IsRun(cfg, w, es, w') && Enabled(w', e)
    ensures IsRun(cfg, w, es + [e], Step(cfg, w', e))
    decreases |es|
  {
    hide Step, Enabled;
    if es == [] {
      assert ([] + [e])[1..] == [];
      assert IsRun(cfg, Step(cfg, w', e), [], Step(cfg, w', e));
    } else {
      assert (es + [e])[1..] == es[1..] + [e];
      RunExtends(cfg, Step(cfg, w, es[0]), es[1..], w', e);
    }
  }

  lemma ReachableStep(cfg: Config, w: World, e: Event)
    requires Reachable(cfg, w) && Enabled(w, e)
    ensures Reachable(cfg, Step(cfg, w, e))
  {
    hide IsRun, Step, Enabled;
    var es: seq<Event> :| IsRun(cfg, START, es, w);
    RunExtends(cfg, START, es, w, e);
  }

  // ---------- what follows ----------

  /** In every reachable state the two indexes describe the same relation, with no empty rooms. */
  lemma IndexesAgree(cfg: Config, w: World, c: Conn, r: Room)
    requires Reachable(cfg, w)
    ensures c in w.ram.peers && w.ram.peers[c].roomId == r <==> r in w.ram.byRoom && c in w.ram.byRoom[r]
    ensures r in w.ram.byRoom ==> w.ram.byRoom[r] != {}
  {
    ReachableGood(cfg, w);
    hide Reachable;
  }

  /** In every reachable state a peer's pending token and the answer expected from it are both empty or both not. */
  lemma PendingTogether(cfg: Config, w: World, c: Conn)
    requires Reachable(cfg, w) && c in w.ram.peers
    ensures w.ram.peers[c].pendingToken == "" <==> w.ram.peers[c].expectedPlaintext == ""
  {
    ReachableGood(cfg, w);
    hide Reachable;
  }

  /** In every reachable state, a joined connection's snapshot of the members, with later arrivals and without
      later departures, is the peer ids now joined to its room, each as often as it is connected. */
  lemma ViewIsMembers(cfg: Config, w: World, c: Conn)
    requires Reachable(cfg, w) && IsJoined(w.ram, c)
    ensures forall id :: View(LogOf(w.sent, c))[id] == |With(w.ram, w.ram.peers[c].roomId, id)|
  {
    ReachableGood(cfg, w);
    hide View, With, Reachable;
    assert SeesMembers(w.ram, LogOf(w.sent, c), w.ram.peers[c].roomId);
  }

  /** In every reachable state, what a joined connection has received is the messages of its room from the point on
      that was fixed when it joined. */
  lemma ReceivedIsSuffix(cfg: Config, w: World, c: Conn)
    requires Reachable(cfg, w) && IsJoined(w.ram, c)
    ensures var all := Messages(w.rec, w.ram.peers[c].roomId);
            c in w.rec.start && w.rec.start[c] <= |all| && Received(LogOf(w.sent, c)) == all[w.rec.start[c]..]
  {
    ReachableGood(cfg, w);
    hide Received, Reachable, Good;
    SuffixOfGood(cfg, w, c);
  }

  lemma JoinerReceives(w: World, c: Conn, token: string, isFresh: bool, order: seq<Conn>)
    requires c in w.ram.peers && forall d :: d in order ==> d in w.ram.peers
    ensures var w', room := FinalizeJoin(w, c, token, isFresh, order), w.ram.peers[c].roomId;
            var history := Recent(w.ram, room);
            && w'.rec.messages == w.rec.messages && Received(LogOf(w'.sent, c)) == Items(history)
            && c in w'.rec.start && (|history| <= |Messages(w.rec, room)| ==>
                w'.rec.start[c] == |Messages(w.rec, room)| - |history|)
  {
    hide PeerIdFromToken, PeerIds, Items, JoinedIn;
    var w', room, id := FinalizeJoin(w, c, token, isFresh, order), w.ram.peers[c].roomId, PeerIdFromToken(token);
    var joined := Joined(id, if isFresh then Some(token) else None, Recent(w.ram, room), PeerIds(w'.ram, order));
    SendLogs(w.sent, c, joined);
    SendAllLogs(Send(w.sent, c, joined), JoinedIn(w'.ram, room) - {c}, PeerJoin(id));
    LogGrows(LogOf(w.sent, c), joined);
    hide Received, Send, SendAll, Messages;
  }

  /** What a step may change before it lets a connection join. */
  ghost predicate Prepares(w: World, w1: World, c: Conn) {
    && w1.ram.msgCache == w.ram.msgCache && w1.sent == w.sent
    && w1.rec.messages == w.rec.messages && w1.rec.erasedAt == w.rec.erasedAt
    && c in w.ram.peers && SamePlaces(w.ram, w1.ram)
  }

  /** A step ends with the joining of a connection. */
  ghost predicate Finalizes(w: World, w': World, c: Conn, order: seq<Conn>) {
    exists w1: World, token: string, isFresh: bool ::
      && Prepares(w, w1, c) && c in w1.ram.peers && (forall d :: d in order ==> d in w1.ram.peers)
      && w' == FinalizeJoin(w1, c, token, isFresh, order)
  }

  lemma FinalizeIs(w: World, w1: World, c: Conn, token: string, isFresh: bool, order: seq<Conn>)
    requires Prepares(w, w1, c) && c in w1.ram.peers && forall d :: d in order ==> d in w1.ram.peers
    ensures Finalizes(w, FinalizeJoin(w1, c, token, isFresh, order), c, order)
  {
    hide FinalizeJoin, Prepares;
  }

  lemma RespondJoins(w: World, c: Conn, answer: string, inputs: Inputs)
    requires c in w.ram.peers && !w.ram.peers[c].joined && forall d :: d in inputs.order ==> d in w.ram.peers
    ensures var w' := Respond(w, c, answer, inputs); Finalizes(w, w', c, inputs.order) || SamePlaces(w.ram, w'.ram)
  {
    var p := w.ram.peers[c];
    PendingPlaces(w.ram, c, "", "");
    PlacesRefl(w.ram);
    RespondCases(w, c, answer, inputs);
    RedeemFrame(w, c, p.pendingToken, p.roomId);
    hide FinalizeJoin, Redeem, Finalizes, SamePlaces, Respond, InsertToken, IsRight;
    FinalizeIs(w, Answered(w, c), c, p.pendingToken, true, inputs.order);
  }

  lemma PlacesRefl(ram: Ram)
    ensures SamePlaces(ram, ram)
  {
  }

  lemma PlacesJoined(a: Ram, b: Ram, c: Conn)
    requires SamePlaces(a, b)
    ensures IsJoined(a, c) == IsJoined(b, c) && (c in a.peers <==> c in b.peers)
    ensures c in a.peers ==> a.peers[c].roomId == b.peers[c].roomId
  {
    assert c in a.peers ==> Place(a.peers[c]) == Place(b.peers[c]);
  }

  lemma RedeemFrame(w: World, c: Conn, token: string, room: Room)
    ensures var rec := Redeem(w, c, token, room);
            && rec.messages == w.rec.messages && rec.erasedAt == w.rec.erasedAt && rec.start == w.rec.start
            && rec.connected == w.rec.connected
  {
  }

  lemma IssuePlaces(w: World, c: Conn, inputs: Inputs)
    requires c in w.ram.peers
    ensures var w' := IssueChallenge(w, c, inputs);
            && SamePlaces(w.ram, w'.ram)
            && w'.rec.messages == w.rec.messages && w'.rec.start == w.rec.start && w'.rec.connected == w.rec.connected
  {
    hide FirstUnused, JoinedIn, MarkUsed, Send;
  }

  /** The messages by which a connection joins. */
  lemma MessageJoins(cfg: Config, w: World, e: Event, c: Conn)
    requires e.Receive? && forall d :: d in e.inputs.order ==> d in w.ram.peers
    requires !IsJoined(w.ram, c) && IsJoined(OnMessage(cfg, w, e.c, e.size, e.message, e.inputs).ram, c)
    ensures e.c == c && Finalizes(w, OnMessage(cfg, w, e.c, e.size, e.message, e.inputs), c, e.inputs.order)
  {
    hide FinalizeJoin, IssueChallenge, Respond, Finalizes, Relay, SamePlaces;
    if e.size <= cfg.wsMaxPayloadBytes && e.c in w.ram.peers && e.message.Some? {
      var m, w' := e.message.value, OnMessage(cfg, w, e.c, e.size, e.message, e.inputs);
      if !w.ram.peers[e.c].joined {
        PlacesRefl(w.ram);
        IssuePlaces(w, e.c, e.inputs);
        RespondJoins(w, e.c, m.plaintext, e.inputs);
        assert m.kind == "hello" && m.token != "" ==> Finalizes(w, w', e.c, e.inputs.order) || w'.ram == w.ram by {
          FinalizeIs(w, w, e.c, m.token, false, e.inputs.order);
        }
        if Finalizes(w, w', e.c, e.inputs.order) {
          if c != e.c {
            OnlyItJoins(w, w', e.c, e.inputs.order, c);
          }
        } else {
          PlacesJoined(w.ram, w'.ram, c);
        }
      } else {
        RelayPeers(cfg, w, e.c, m.kind, m.payload, e.inputs);
      }
    }
  }

  lemma OnlyItJoins(w: World, w': World, c: Conn, order: seq<Conn>, d: Conn)
    requires Finalizes(w, w', c, order) && d != c
    ensures IsJoined(w'.ram, d) == IsJoined(w.ram, d)
  {
    hide SamePlaces, PeerIdFromToken, Broadcast, Send;
    var w1: World, token: string, isFresh: bool :|
      && Prepares(w, w1, c) && c in w1.ram.peers && (forall d :: d in order ==> d in w1.ram.peers)
      && w' == FinalizeJoin(w1, c, token, isFresh, order);
    PlacesJoined(w.ram, w1.ram, d);
  }

  lemma RelayPeers(cfg: Config, w: World, c: Conn, kind: string, payload: string, inputs: Inputs)
    requires c in w.ram.peers
    ensures Relay(cfg, w, c, kind, payload, inputs).ram.peers == w.ram.peers
  {
    hide Send, Broadcast, LastOf;
  }

  /** When a connection joins, by a token or by a right answer, it receives the last messages of its room since the
      cache was last erased, as many as the cache holds; and that fixes from where on it has the room's messages. */
  lemma JoinHistory(cfg: Config, w: World, e: Event, c: Conn)
    requires Reachable(cfg, w) && Enabled(w, e) && !IsJoined(w.ram, c) && IsJoined(Step(cfg, w, e).ram, c)
    ensures e.Receive? && e.c == c && c in w.ram.peers
    ensures ErasedAt(w.rec, w.ram.peers[c].roomId) <= |Messages(w.rec, w.ram.peers[c].roomId)|
    ensures var w', room := Step(cfg, w, e), w.ram.peers[c].roomId;
            var all := Messages(w.rec, room);
            var before := LastOf(all[ErasedAt(w.rec, room)..], CacheSize(cfg));
            && w'.rec.messages == w.rec.messages && Received(LogOf(w'.sent, c)) == before
            && c in w'.rec.start && w'.rec.start[c] == |all| - |before|
  {
    JoinEvent(cfg, w, e, c);
    EnabledOrder(w, e);
    hide Reachable, Good, FinalizeJoin, Received, Items, Messages, ErasedAt, Recent, OnMessage;
    MessageJoins(cfg, w, e, c);
    ReachableGood(cfg, w);
    CacheOfGood(cfg, w);
    assert CacheOk(cfg, w.ram, w.rec, w.ram.peers[c].roomId);
    JoinedHistory(cfg, w, Step(cfg, w, e), c, e.inputs.order);
  }

  lemma JoinEvent(cfg: Config, w: World, e: Event, c: Conn)
    requires Enabled(w, e) && !IsJoined(w.ram, c) && IsJoined(Step(cfg, w, e).ram, c)
    ensures e.Receive?
  {
    hide OnMessage, Broadcast, InRoom, SendAll, DeleteRoom, GoodPair, Required, NewRows;
  }

  lemma JoinedHistory(cfg: Config, w: World, w': World, c: Conn, order: seq<Conn>)
    requires Finalizes(w, w', c, order) && CacheOk(cfg, w.ram, w.rec, w.ram.peers[c].roomId)
    ensures c in w.ram.peers
    ensures ErasedAt(w.rec, w.ram.peers[c].roomId) <= |Messages(w.rec, w.ram.peers[c].roomId)|
    ensures var room := w.ram.peers[c].roomId;
            var all := Messages(w.rec, room);
            var before := LastOf(all[ErasedAt(w.rec, room)..], CacheSize(cfg));
            && w'.rec.messages == w.rec.messages && Received(LogOf(w'.sent, c)) == before
            && c in w'.rec.start && w'.rec.start[c] == |all| - |before|
  {
    hide FinalizeJoin, Received, Items, SamePlaces;
    var w1: World, token: string, isFresh: bool :|
      && Prepares(w, w1, c) && c in w1.ram.peers && (forall d :: d in order ==> d in w1.ram.peers)
      && w' == FinalizeJoin(w1, c, token, isFresh, order);
    PlacesJoined(w.ram, w1.ram, c);
    JoinerReceives(w1, c, token, isFresh, order);
  }

  lemma IndexOfGood(cfg: Config, w: World)
    requires Good(cfg, w)
    ensures IndexInv(w.ram)
  {
  }

  lemma CacheOfGood(cfg: Config, w: World)
    requires Good(cfg, w)
    ensures forall r :: CacheOk(cfg, w.ram, w.rec, r)
  {
  }

  // ---------- after the join ----------

  /** A connection that has joined, and perhaps gone. */
  predicate Settled(w: World, c: Conn) {
    c in w.rec.connected && (c in w.ram.peers ==> w.ram.peers[c].joined) && c in w.rec.start
  }

  /** Where the messages of a settled connection start stays, and so does its room; messages are only added. */
  ghost predicate StartKept(w: World, w': World, c: Conn) {
    && Settled(w, c) && Settled(w', c) && w'.rec.start[c] == w.rec.start[c]
    && (c in w'.ram.peers ==> c in w.ram.peers && w'.ram.peers[c].roomId == w.ram.peers[c].roomId)
    && forall r :: Messages(w.rec, r) <= Messages(w'.rec, r)
  }

  lemma StartKeptJoin(w: World, d: Conn, token: string, isFresh: bool, order: seq<Conn>, c: Conn)
    requires Settled(w, c) && d in w.ram.peers && d != c && forall k :: k in order ==> k in w.ram.peers
    ensures StartKept(w, FinalizeJoin(w, d, token, isFresh, order), c)
  {
    hide PeerIdFromToken, Broadcast, Send, PeerIds;
  }

  lemma StartKeptPlaces(w: World, w': World, c: Conn)
    requires Settled(w, c) && SamePlaces(w.ram, w'.ram)
    requires w'.rec.messages == w.rec.messages && w'.rec.start == w.rec.start && w'.rec.connected == w.rec.connected
    ensures StartKept(w, w', c)
  {
    PlacesJoined(w.ram, w'.ram, c);
    SameMessages(w.rec, w'.rec);
    hide SamePlaces, Messages;
  }

  lemma StartKeptTwice(w: World, w1: World, w2: World, c: Conn)
    requires StartKept(w, w1, c) && StartKept(w1, w2, c)
    ensures StartKept(w, w2, c)
  {
    hide Messages;
  }

  lemma StartKeptRespond(w: World, d: Conn, answer: string, inputs: Inputs, c: Conn)
    requires Settled(w, c) && d in w.ram.peers && d != c && forall k :: k in inputs.order ==> k in w.ram.peers
    ensures StartKept(w, Respond(w, d, answer, inputs), c)
  {
    var p, w1, w' := w.ram.peers[d], Answered(w, d), Respond(w, d, answer, inputs);
    RespondCases(w, d, answer, inputs);
    RedeemFrame(w, d, p.pendingToken, p.roomId);
    PendingPlaces(w.ram, d, "", "");
    PlacesRefl(w.ram);
    hide FinalizeJoin, Redeem, Respond, InsertToken, IsRight, SamePlaces, Settled, StartKept, SetPending;
    StartKeptPlaces(w, w1, c);
    if IsRight(w, d, answer) {
      assert Settled(w1, c) by { SettledAfter(w, w1, c); }
      StartKeptJoin(w1, d, p.pendingToken, true, inputs.order, c);
      StartKeptTwice(w, w1, w', c);
    } else {
      StartKeptPlaces(w, w', c);
    }
  }

  lemma SettledAfter(w: World, w': World, c: Conn)
    requires StartKept(w, w', c)
    ensures Settled(w', c)
  {
  }

  lemma SameMessages(rec: Records, rec': Records)
    ensures rec'.messages == rec.messages ==> forall r :: Messages(rec', r) == Messages(rec, r)
  {
  }

  lemma StartKeptIssue(w: World, d: Conn, inputs: Inputs, c: Conn)
    requires Settled(w, c) && d in w.ram.peers
    ensures StartKept(w, IssueChallenge(w, d, inputs), c)
  {
    IssuePlaces(w, d, inputs);
    hide IssueChallenge, SamePlaces;
    StartKeptPlaces(w, IssueChallenge(w, d, inputs), c);
  }

  lemma StartKeptSame(w: World, w': World, c: Conn)
    requires Settled(w, c) && w'.ram.peers == w.ram.peers && w'.rec.start == w.rec.start
             && w'.rec.connected == w.rec.connected
    requires w'.rec.messages == w.rec.messages
    ensures StartKept(w, w', c)
  {
  }

  lemma StartKeptMore(w: World, w': World, c: Conn, r: Room, item: (string, string))
    requires Settled(w, c) && w'.ram.peers == w.ram.peers && w'.rec.start == w.rec.start
             && w'.rec.connected == w.rec.connected
    requires w'.rec.messages == w.rec.messages[r := Messages(w.rec, r) + [item]]
    ensures StartKept(w, w', c)
  {
  }

  lemma StartKeptRelay(cfg: Config, w: World, d: Conn, kind: string, payload: string, inputs: Inputs, c: Conn)
    requires Settled(w, c) && d in w.ram.peers
    ensures StartKept(w, Relay(cfg, w, d, kind, payload, inputs), c)
  {
    var w', p := Relay(cfg, w, d, kind, payload, inputs), w.ram.peers[d];
    RelayPeers(cfg, w, d, kind, payload, inputs);
    hide Send, Broadcast, AppendCached, Messages, Settled, StartKept;
    if payload != "" && |payload| <= cfg.wsMaxPayloadBytes && kind == "msg" {
      StartKeptMore(w, w', c, p.roomId, (p.peerId, payload));
    } else {
      StartKeptSame(w, w', c);
    }
  }

  lemma StartKeptMessage(cfg: Config, w: World, e: Event, c: Conn)
    requires Settled(w, c) && e.Receive? && forall k :: k in e.inputs.order ==> k in w.ram.peers
    ensures StartKept(w, OnMessage(cfg, w, e.c, e.size, e.message, e.inputs), c)
  {
    hide FinalizeJoin, IssueChallenge, Respond, Relay, Send;
    if e.c in w.ram.peers && e.message.Some? {
      var m := e.message.value;
      if w.ram.peers[e.c].joined {
        StartKeptRelay(cfg, w, e.c, m.kind, m.payload, e.inputs, c);
      } else {
        StartKeptIssue(w, e.c, e.inputs, c);
        StartKeptJoin(w, e.c, m.token, false, e.inputs.order, c);
        StartKeptRespond(w, e.c, m.plaintext, e.inputs, c);
      }
    }
  }

  lemma StartKeptOpens(w: World, d: Conn, room: Room, peerId: string, c: Conn)
    requires Settled(w, c) && d !in w.rec.connected
    ensures StartKept(w, OnAccept(w, d, room, peerId), c)
  {
    hide InRoom;
  }

  lemma StartKeptCloses(w: World, d: Conn, c: Conn)
    requires Settled(w, c)
    ensures StartKept(w, OnClose(w, d), c)
  {
    if d in w.ram.peers {
      OthersUntouched(w.ram, d);
    }
    SameMessages(w.rec, OnClose(w, d).rec);
    hide Broadcast, RemovePeer, Messages;
  }

  lemma StartKeptStep(cfg: Config, w: World, e: Event, c: Conn)
    requires Settled(w, c) && Enabled(w, e)
    ensures StartKept(w, Step(cfg, w, e), c)
  {
    hide OnMessage, OnAccept, OnClose, InRoom, SendAll, DeleteRoom, GoodPair, Required, NewRows, Settled, StartKept;
    match e
    case Receive(_, _, _, _) =>
      EnabledOrder(w, e);
      StartKeptMessage(cfg, w, e, c);
    case Accept(d, room, peerId) => StartKeptOpens(w, d, room, peerId, c);
    case Closed(d) => StartKeptCloses(w, d, c);
    case _ => StartKeptSame(w, Step(cfg, w, e), c);
  }

  lemma {:induction false} StartKeptRun(cfg: Config, w: World, es: seq<Event>, w': World, c: Conn)
    requires Settled(w, c) && IsRun(cfg, w, es, w')
    ensures StartKept(w, w', c)
    decreases |es|
  {
    hide Step, Enabled, Messages;
    if es != [] {
      var next := Step(cfg, w, es[0]);
      StartKeptStep(cfg, w, es[0], c);
      StartKeptRun(cfg, next, es[1..], w', c);
    }
  }

  /** From the time when a connection has joined, every message of its room is added once to what it has received,
      in order, whatever else happens in the run. */
  lemma ReceivesAll(cfg: Config, w: World, es: seq<Event>, w': World, c: Conn)
    requires Reachable(cfg, w) && IsRun(cfg, w, es, w') && IsJoined(w.ram, c) && IsJoined(w'.ram, c)
    ensures var room := w.ram.peers[c].roomId;
            && w'.ram.peers[c].roomId == room && Messages(w.rec, room) <= Messages(w'.rec, room)
            && Received(LogOf(w'.sent, c)) == Received(LogOf(w.sent, c))
                + Messages(w'.rec, room)[|Messages(w.rec, room)|..]
  {
    hide Received, Reachable, IsRun, Good, Messages;
    ReachableGood(cfg, w);
    RunKeeps(cfg, w, es, w');
    SuffixOfGood(cfg, w, c);
    SuffixOfGood(cfg, w', c);
    StartKeptRun(cfg, w, es, w', c);
    var room := w.ram.peers[c].roomId;
    assert Messages(w.rec, room) <= Messages(w'.rec, room);
    SuffixExtends(Messages(w.rec, room), Messages(w'.rec, room), w.rec.start[c]);
  }

  lemma SuffixExtends<T>(a: seq<T>, b: seq<T>, start: nat)
    requires a <= b && start <= |a|
    ensures b[start..] == a[start..] + b[|a|..]
  {
  }

  lemma SuffixOfGood(cfg: Config, w: World, c: Conn)
    requires Good(cfg, w) && IsJoined(w.ram, c)
    ensures var all := Messages(w.rec, w.ram.peers[c].roomId);
            c in w.rec.start && w.rec.start[c] <= |all| && Received(LogOf(w.sent, c)) == all[w.rec.start[c]..]
    ensures Settled(w, c)
  {
    assert HistoryOk(w.ram, w.sent, w.rec, c) && DepartOk(w.ram, w.rec, c);
    hide Received, HistoryInv;
  }

  // ---------- departures ----------

  /** How often a connection was told that a peer with this id has left. */
  function LeavesIn(log: seq<Frame>, id: string): nat {
    if log == [] then 0
    else LeavesIn(log[..|log| - 1], id) + if log[|log| - 1] == PeerLeave(id) then 1 else 0
  }

  /** The joined connections with a given id that have departed. */
  function DepartedAs(rec: Records, id: string): set<Conn> {
    set c | c in rec.departed && rec.departed[c] == id
  }

  /** No connection was told of more departures with an id than there were. */
  ghost predicate LeavesInv(w: World) {
    forall d, id :: LeavesOk(w, d, id)
  }

  predicate LeavesOk(w: World, d: Conn, id: string) {
    LeavesIn(LogOf(w.sent, d), id) <= |DepartedAs(w.rec, id)|
  }

  ghost predicate NoLeaves(a: Sent, b: Sent) {
    forall d, id :: LeavesIn(LogOf(b, d), id) == LeavesIn(LogOf(a, d), id)
  }

  lemma LeavesGrow(log: seq<Frame>, f: Frame, id: string)
    ensures LeavesIn(log + [f], id) == LeavesIn(log, id) + if f == PeerLeave(id) then 1 else 0
  {
    assert (log + [f])[..|log|] == log;
  }

  lemma SendNoLeave(sent: Sent, c: Conn, f: Frame)
    requires !f.PeerLeave?
    ensures NoLeaves(sent, Send(sent, c, f))
  {
    SendLogs(sent, c, f);
    hide Send, LogOf, LeavesIn;
    forall d, id ensures LeavesIn(LogOf(Send(sent, c, f), d), id) == LeavesIn(LogOf(sent, d), id) {
      LeavesGrow(LogOf(sent, d), f, id);
    }
  }

  lemma SendAllNoLeave(sent: Sent, targets: set<Conn>, f: Frame)
    requires !f.PeerLeave?
    ensures NoLeaves(sent, SendAll(sent, targets, f))
  {
    SendAllLogs(sent, targets, f);
    hide SendAll, LogOf, LeavesIn;
    forall d, id ensures LeavesIn(LogOf(SendAll(sent, targets, f), d), id) == LeavesIn(LogOf(sent, d), id) {
      LeavesGrow(LogOf(sent, d), f, id);
    }
  }

  lemma NoLeavesTwice(a: Sent, b: Sent, c: Sent)
    requires NoLeaves(a, b) && NoLeaves(b, c)
    ensures NoLeaves(a, c)
  {
    hide LeavesIn, LogOf;
    forall d, id ensures LeavesIn(LogOf(c, d), id) == LeavesIn(LogOf(a, d), id) {
      assert LeavesIn(LogOf(b, d), id) == LeavesIn(LogOf(a, d), id);
    }
  }

  /** A step that tells nobody of a departure, and removes no peer. */
  ghost predicate Stays(w: World, w': World) {
    NoLeaves(w.sent, w'.sent) && w'.rec.departed == w.rec.departed && w'.ram.peers.Keys == w.ram.peers.Keys
  }

  lemma StaysSend(w: World, c: Conn, f: Frame)
    requires !f.PeerLeave?
    ensures Stays(w, SendTo(w, c, f))
  {
    SendNoLeave(w.sent, c, f);
    hide NoLeaves, Send;
  }

  lemma StaysTwice(a: World, b: World, c: World)
    requires Stays(a, b) && Stays(b, c)
    ensures Stays(a, c)
  {
    NoLeavesTwice(a.sent, b.sent, c.sent);
    hide NoLeaves;
  }

  lemma StaysRefuse(w: World, c: Conn, code: string)
    ensures Stays(w, Refuse(w, c, code))
  {
    hide Stays, SendTo;
    StaysSend(w, c, Error(code));
    StaysSend(SendTo(w, c, Error(code)), c, Close(code));
    StaysTwice(w, SendTo(w, c, Error(code)), Refuse(w, c, code));
  }

  lemma StaysPending(w: World, w': World)
    requires w'.sent == w.sent && w'.rec.departed == w.rec.departed && w'.ram.peers.Keys == w.ram.peers.Keys
    ensures Stays(w, w')
  {
    hide LeavesIn, LogOf;
  }

  lemma StaysIssue(w: World, c: Conn, inputs: Inputs)
    requires c in w.ram.peers
    ensures Stays(w, IssueChallenge(w, c, inputs))
  {
    hide FirstUnused, JoinedIn, MarkUsed, NoLeaves, Send;
    var w' := IssueChallenge(w, c, inputs);
    var f: Frame :| !f.PeerLeave? && w'.sent == Send(w.sent, c, f);
    SendNoLeave(w.sent, c, f);
  }

  lemma StaysJoin(w: World, c: Conn, token: string, isFresh: bool, order: seq<Conn>)
    requires c in w.ram.peers && forall d :: d in order ==> d in w.ram.peers
    ensures Stays(w, FinalizeJoin(w, c, token, isFresh, order))
  {
    JoinFrame(w, c, token, isFresh, order);
    var w', id, room := FinalizeJoin(w, c, token, isFresh, order), PeerIdFromToken(token), w.ram.peers[c].roomId;
    hide FinalizeJoin, PeerIdFromToken, NoLeaves, JoinedIn, PeerIds, Send, SendAll;
    var f: Frame :| f.Joined? && f.members == PeerIds(w'.ram, order)
                    && w'.sent == Broadcast(w'.ram, Send(w.sent, c, f), room, PeerJoin(id), {c});
    SendNoLeave(w.sent, c, f);
    SendAllNoLeave(Send(w.sent, c, f), JoinedIn(w'.ram, room) - {c}, PeerJoin(id));
    NoLeavesTwice(w.sent, Send(w.sent, c, f), w'.sent);
  }

  lemma StaysRespond(w: World, c: Conn, answer: string, inputs: Inputs)
    requires c in w.ram.peers && forall d :: d in inputs.order ==> d in w.ram.peers
    ensures Stays(w, Respond(w, c, answer, inputs))
  {
    var p, w1, w2 := w.ram.peers[c], w.(ram := SetPending(w.ram, c, "", "")), Answered(w, c);
    StaysPending(w, w1);
    StaysPending(w, w2);
    AnsweredIs(w, c);
    hide Stays, Refuse, FinalizeJoin, Redeem, SetPending, Answered;
    if IsRight(w, c, answer) {
      RespondRight(w, c, answer, inputs);
      hide Respond;
      StaysJoin(w2, c, p.pendingToken, true, inputs.order);
      StaysTwice(w, w2, Respond(w, c, answer, inputs));
    } else {
      StaysRefuse(w, c, "no_challenge");
      StaysRefuse(w1, c, "invalid_key");
      StaysRefuse(w1, c, "internal");
      StaysTwice(w, w1, Refuse(w1, c, "invalid_key"));
      StaysTwice(w, w1, Refuse(w1, c, "internal"));
    }
  }

  lemma StaysRelay(cfg: Config, w: World, c: Conn, kind: string, payload: string, inputs: Inputs)
    requires c in w.ram.peers
    ensures Stays(w, Relay(cfg, w, c, kind, payload, inputs))
  {
    var p := w.ram.peers[c];
    RelayPeers(cfg, w, c, kind, payload, inputs);
    RelayFrame(cfg, w, c, kind, payload, inputs);
    StaysSend(w, c, Error("bad_payload"));
    StaysSend(w, c, Error("payload_too_large"));
    SendAllNoLeave(w.sent, JoinedIn(w.ram, p.roomId) - {}, Msg(p.peerId, payload, inputs.sentAt));
    SendAllNoLeave(w.sent, JoinedIn(w.ram, p.roomId) - {c}, Presence(p.peerId, payload, inputs.sentAt));
    hide NoLeaves, SendAll, SendTo, AppendCached, JoinedIn;
  }

  lemma StaysMessage(cfg: Config, w: World, e: Event)
    requires e.Receive? && forall d :: d in e.inputs.order ==> d in w.ram.peers
    ensures Stays(w, OnMessage(cfg, w, e.c, e.size, e.message, e.inputs))
  {
    hide Stays, SendTo, Refuse, FinalizeJoin, IssueChallenge, Respond, Relay;
    StaysSend(w, e.c, Close("payload too large"));
    StaysSend(w, e.c, Close("no peer"));
    StaysSend(w, e.c, Error("bad_frame"));
    if e.c in w.ram.peers && e.message.Some? {
      var m := e.message.value;
      if w.ram.peers[e.c].joined {
        StaysRelay(cfg, w, e.c, m.kind, m.payload, e.inputs);
        StaysSend(w, e.c, Pong);
        StaysSend(w, e.c, Error("unknown_type"));
      } else {
        StaysIssue(w, e.c, e.inputs);
        StaysJoin(w, e.c, m.token, false, e.inputs.order);
        StaysRefuse(w, e.c, "invalid_key");
        StaysRespond(w, e.c, m.plaintext, e.inputs);
        StaysRefuse(w, e.c, "not_joined");
      }
    }
  }

  lemma StaysDelete(w: World, room: Room)
    ensures Stays(w, CloseAndDelete(w, room))
  {
    var told := SendAll(w.sent, InRoom(w.ram, room), Deleted);
    SendAllNoLeave(w.sent, InRoom(w.ram, room), Deleted);
    SendAllNoLeave(told, InRoom(w.ram, room), Close("room deleted"));
    NoLeavesTwice(w.sent, told, CloseAndDelete(w, room).sent);
    hide NoLeaves, SendAll, InRoom, DeleteRoom;
  }

  lemma LeavesKept(w: World, w': World)
    requires LeavesInv(w) && NoLeaves(w.sent, w'.sent) && w'.rec.departed == w.rec.departed
    ensures LeavesInv(w')
  {
    hide LeavesIn, LogOf;
    forall d, id ensures LeavesOk(w', d, id) {
      assert LeavesOk(w, d, id) && DepartedAs(w'.rec, id) == DepartedAs(w.rec, id);
    }
  }

  lemma DepartsAs(w: World, c: Conn, id: string)
    requires c in w.ram.peers && w.ram.peers[c].joined && c !in w.rec.departed
    ensures |DepartedAs(OnClose(w, c).rec, id)|
            == |DepartedAs(w.rec, id)| + if w.ram.peers[c].peerId == id then 1 else 0
  {
    DepartedGrows(w.rec, c, w.ram.peers[c].peerId, id);
    hide Broadcast, RemovePeer, DepartedAs;
  }

  lemma DepartedGrows(rec: Records, c: Conn, peerId: string, id: string)
    requires c !in rec.departed
    ensures |DepartedAs(rec.(departed := rec.departed[c := peerId]), id)|
            == |DepartedAs(rec, id)| + if peerId == id then 1 else 0
  {
    var rec' := rec.(departed := rec.departed[c := peerId]);
    assert c !in DepartedAs(rec, id);
    assert DepartedAs(rec', id) == DepartedAs(rec, id) + if peerId == id then {c} else {};
  }

  lemma LeavesClose(w: World, c: Conn)
    requires LeavesInv(w) && DepartInv(w.ram, w.rec)
    ensures LeavesInv(OnClose(w, c))
  {
    var w' := OnClose(w, c);
    assert DepartOk(w.ram, w.rec, c);
    if c in w.ram.peers && w.ram.peers[c].joined {
      var p, ram := w.ram.peers[c], RemovePeer(w.ram, c);
      var f, targets := PeerLeave(p.peerId), JoinedIn(ram, p.roomId) - {};
      SendAllLogs(w.sent, targets, f);
      assert w'.sent == SendAll(w.sent, targets, f);
      hide SendAll, LogOf, LeavesIn, OnClose, DepartedAs, JoinedIn, RemovePeer;
      forall d, id ensures LeavesOk(w', d, id) {
        assert LeavesOk(w, d, id);
        LeavesGrow(LogOf(w.sent, d), f, id);
        DepartsAs(w, c, id);
      }
    } else {
      NoLeavesRefl(w.sent);
      LeavesKept(w, w');
    }
  }

  lemma NoLeavesRefl(sent: Sent)
    ensures NoLeaves(sent, sent)
  {
  }

  lemma StepLeaves(cfg: Config, w: World, e: Event)
    requires LeavesInv(w) && DepartInv(w.ram, w.rec) && Enabled(w, e)
    ensures LeavesInv(Step(cfg, w, e))
  {
    hide LeavesInv, NoLeaves, OnMessage, OnClose, CloseAndDelete, DepartInv, AddPeer, GoodPair, InsertChallenges,
        Required;
    NoLeavesRefl(w.sent);
    match e
    case Closed(c) => LeavesClose(w, c);
    case Receive(_, _, _, _) =>
      EnabledOrder(w, e);
      StaysMessage(cfg, w, e);
      LeavesKept(w, Step(cfg, w, e));
    case Delete(room, _) =>
      StaysDelete(w, room);
      LeavesKept(w, Step(cfg, w, e));
    case Purge(room) =>
      StaysDelete(w, room);
      LeavesKept(w, Step(cfg, w, e));
    case _ => LeavesKept(w, Step(cfg, w, e));
  }

  lemma {:induction false} RunLeaves(cfg: Config, w: World, es: seq<Event>, w': World)
    requires Good(cfg, w) && LeavesInv(w) && IsRun(cfg, w, es, w')
    ensures LeavesInv(w')
    decreases |es|
  {
    hide Good, Step, Enabled, LeavesInv;
    if es != [] {
      DepartOfGood(cfg, w);
      StepKeeps(cfg, w, es[0]);
      StepLeaves(cfg, w, es[0]);
      RunLeaves(cfg, Step(cfg, w, es[0]), es[1..], w');
    }
  }

  lemma DepartOfGood(cfg: Config, w: World)
    requires Good(cfg, w)
    ensures DepartInv(w.ram, w.rec)
  {
  }

  /** In every reachable state: every connection was told at most once of each departure, that is, at most as often of
      the leaving of a peer as joined connections with its id have departed, each of which counts once. */
  lemma DepartsOnce(cfg: Config, w: World, d: Conn, id: string)
    requires Reachable(cfg, w)
    ensures LeavesIn(LogOf(w.sent, d), id) <= |DepartedAs(w.rec, id)| && (d in w.ram.peers ==> d !in w.rec.departed)
  {
    DepartOfReachable(cfg, w, d);
    StartGood(cfg);
    assert LeavesInv(START) by {
      forall d, id ensures LeavesOk(START, d, id) {
      }
    }
    hide Good, IsRun, LeavesInv;
    var es: seq<Event> :| IsRun(cfg, START, es, w);
    RunLeaves(cfg, START, es, w);
    assert LeavesOk(w, d, id) by { LeavesAt(w, d, id); }
  }

  lemma DepartOfReachable(cfg: Config, w: World, d: Conn)
    requires Reachable(cfg, w)
    ensures DepartOk(w.ram, w.rec, d)
  {
    ReachableGood(cfg, w);
    hide Reachable;
  }

  lemma LeavesAt(w: World, d: Conn, id: string)
    requires LeavesInv(w)
    ensures LeavesOk(w, d, id)
  {
  }

  /** A connection that is gone does not come back. */
  lemma GoneStep(cfg: Config, w: World, e: Event, c: Conn)
    requires Enabled(w, e) && c in w.rec.connected && c !in w.ram.peers
    ensures var w' := Step(cfg, w, e); c in w'.rec.connected && c !in w'.ram.peers
  {
    hide OnMessage, CloseAndDelete, NoLeaves, InRoom, GoodPair, Required, NewRows, Broadcast;
    match e
    case Receive(_, _, _, _) =>
      EnabledOrder(w, e);
      StaysMessage(cfg, w, e);
      MessageConnected(cfg, w, e);
    case Delete(room, _) => StaysDelete(w, room);
      DeleteConnected(w, room);
    case Purge(room) => StaysDelete(w, room);
      DeleteConnected(w, room);
    case _ =>
  }

  lemma DeleteConnected(w: World, room: Room)
    ensures CloseAndDelete(w, room).rec.connected == w.rec.connected
  {
    hide SendAll, InRoom, DeleteRoom;
  }

  lemma MessageConnected(cfg: Config, w: World, e: Event)
    requires e.Receive? && forall d :: d in e.inputs.order ==> d in w.ram.peers
    ensures OnMessage(cfg, w, e.c, e.size, e.message, e.inputs).rec.connected == w.rec.connected
  {
    hide FinalizeJoin, IssueChallenge, Respond, Relay, Send;
    if e.c in w.ram.peers && e.message.Some? {
      var m := e.message.value;
      if w.ram.peers[e.c].joined {
        RelayFrame(cfg, w, e.c, m.kind, m.payload, e.inputs);
      } else {
        IssuePlaces(w, e.c, e.inputs);
        JoinFrame(w, e.c, m.token, false, e.inputs.order);
        RespondConnected(w, e.c, m.plaintext, e.inputs);
      }
    }
  }

  lemma RespondConnected(w: World, c: Conn, answer: string, inputs: Inputs)
    requires c in w.ram.peers && forall d :: d in inputs.order ==> d in w.ram.peers
    ensures Respond(w, c, answer, inputs).rec.connected == w.rec.connected
  {
    RespondCases(w, c, answer, inputs);
    hide FinalizeJoin, Respond, IsRight, InsertToken;
    JoinFrame(Answered(w, c), c, w.ram.peers[c].pendingToken, true, inputs.order);
  }

  /** When a connection has closed, a second report of its end does nothing, however much later it comes. */
  lemma {:induction false} ClosesOnce(cfg: Config, w: World, es: seq<Event>, w': World, c: Conn)
    requires c in w.rec.connected && c !in w.ram.peers && IsRun(cfg, w, es, w')
    ensures Step(cfg, w', Closed(c)) == w'
    decreases |es|
  {
    if es != [] {
      hide Step, Enabled;
      GoneStep(cfg, w, es[0], c);
      ClosesOnce(cfg, Step(cfg, w, es[0]), es[1..], w', c);
    }
  }

  /** In every reachable state, a joined peer's id comes from a token that was recorded for its own room. */
  lemma JoinedByToken(cfg: Config, w: World, c: Conn)
    requires Reachable(cfg, w) && IsJoined(w.ram, c)
    ensures exists t :: (t, w.ram.peers[c].roomId) in w.rec.tokens && w.ram.peers[c].peerId == PeerIdFromToken(t)
  {
    ReachableGood(cfg, w);
    hide PeerIdFromToken, Reachable;
    assert TokenOk(w.ram, w.rec, c);
  }

  /** A message that a joined peer relays to a room. */
  predicate RelaysMsg(cfg: Config, w: World, e: Event, r: Room) {
    && e.Receive? && e.size <= cfg.wsMaxPayloadBytes && IsJoined(w.ram, e.c) && w.ram.peers[e.c].roomId == r
    && e.message.Some? && e.message.value.kind == "msg"
    && e.message.value.payload != "" && |e.message.value.payload| <= cfg.wsMaxPayloadBytes
  }

  predicate Erases(w: World, e: Event, r: Room) {
    e == Purge(r) || (e.Delete? && e.room == r && e.token != "" && e.token in w.db.tokens && w.db.tokens[e.token] == r)
  }

  /** Every step, and the cache of every room: a message that a joined peer relays is added, deleting and purging the
      room empties it, and nothing else changes it; presence frames do not. */
  lemma CacheChanges(cfg: Config, w: World, e: Event, r: Room)
    requires Enabled(w, e)
    ensures Recent(Step(cfg, w, e).ram, r)
         == if Erases(w, e, r) then []
            else if RelaysMsg(cfg, w, e, r) then
              (var m := CachedMessage(w.ram.peers[e.c].peerId, e.message.value.payload, e.inputs.cachedAt);
               if CacheSize(cfg) == 0 then Recent(w.ram, r) else LastOf(Recent(w.ram, r) + [m], CacheSize(cfg)))
            else Recent(w.ram, r)
  {
    hide OnMessage, Broadcast, InRoom, SendAll, DeleteRoom, GoodPair, Required, NewRows, LastOf;
    if e.Receive? {
      EnabledOrder(w, e);
      MessageCache(cfg, w, e, r);
    }
  }

  lemma JoinCache(w: World, c: Conn, token: string, isFresh: bool, order: seq<Conn>)
    requires c in w.ram.peers && forall d :: d in order ==> d in w.ram.peers
    ensures FinalizeJoin(w, c, token, isFresh, order).ram.msgCache == w.ram.msgCache
  {
    hide PeerIdFromToken, Broadcast, Send, PeerIds;
  }

  lemma RespondCache(w: World, c: Conn, answer: string, inputs: Inputs)
    requires c in w.ram.peers && forall d :: d in inputs.order ==> d in w.ram.peers
    ensures Respond(w, c, answer, inputs).ram.msgCache == w.ram.msgCache
  {
    var p := w.ram.peers[c];
    RespondCases(w, c, answer, inputs);
    hide FinalizeJoin, Redeem, Respond, InsertToken;
    JoinCache(Answered(w, c), c, p.pendingToken, true, inputs.order);
  }

  lemma IssueCache(w: World, c: Conn, inputs: Inputs)
    requires c in w.ram.peers
    ensures IssueChallenge(w, c, inputs).ram.msgCache == w.ram.msgCache
  {
    hide FirstUnused, JoinedIn, MarkUsed, Send;
  }

  lemma MessageCache(cfg: Config, w: World, e: Event, r: Room)
    requires e.Receive? && forall d :: d in e.inputs.order ==> d in w.ram.peers
    ensures var ram := OnMessage(cfg, w, e.c, e.size, e.message, e.inputs).ram;
            if RelaysMsg(cfg, w, e, r) then
              var m := CachedMessage(w.ram.peers[e.c].peerId, e.message.value.payload, e.inputs.cachedAt);
              Recent(ram, r) == if CacheSize(cfg) == 0 then Recent(w.ram, r)
                  else LastOf(Recent(w.ram, r) + [m], CacheSize(cfg))
            else Recent(ram, r) == Recent(w.ram, r)
  {
    hide FinalizeJoin, IssueChallenge, Respond, Broadcast, Send, LastOf;
    if e.c in w.ram.peers && e.message.Some? && !w.ram.peers[e.c].joined {
      var m := e.message.value;
      IssueCache(w, e.c, e.inputs);
      JoinCache(w, e.c, m.token, false, e.inputs.order);
      RespondCache(w, e.c, m.plaintext, e.inputs);
    }
  }

  /** A connection is sent nothing. */
  predicate Untold(w: World, w': World, d: Conn) {
    LogOf(w'.sent, d) == LogOf(w.sent, d)
  }

  lemma UntoldSend(w: World, c: Conn, f: Frame, d: Conn)
    requires c != d
    ensures Untold(w, SendTo(w, c, f), d)
  {
  }

  lemma UntoldBroadcast(ram: Ram, sent: Sent, room: Room, f: Frame, except: set<Conn>, d: Conn)
    requires d !in JoinedIn(ram, room) - except
    ensures LogOf(Broadcast(ram, sent, room, f, except), d) == LogOf(sent, d)
  {
    SendAllLogs(sent, JoinedIn(ram, room) - except, f);
  }

  lemma UntoldJoin(w: World, c: Conn, token: string, isFresh: bool, order: seq<Conn>, d: Conn)
    requires IndexInv(w.ram) && c in w.ram.peers && c != d && d !in JoinedIn(w.ram, w.ram.peers[c].roomId)
    requires forall k :: k in order ==> k in w.ram.peers
    ensures Untold(w, FinalizeJoin(w, c, token, isFresh, order), d)
  {
    var room, id := w.ram.peers[c].roomId, PeerIdFromToken(token);
    var ram := MarkJoined(w.ram, c, id);
    var joined := Joined(id, if isFresh then Some(token) else None, Recent(w.ram, room), PeerIds(ram, order));
    MarkJoinedIndex(w.ram, c, id);
    hide PeerIdFromToken, MarkJoined, Broadcast, JoinedIn, PeerIds;
    UntoldSend(w, c, joined, d);
    UntoldBroadcast(ram, Send(w.sent, c, joined), room, PeerJoin(id), {c}, d);
  }

  lemma UntoldIssue(w: World, c: Conn, inputs: Inputs, d: Conn)
    requires c in w.ram.peers && c != d
    ensures Untold(w, IssueChallenge(w, c, inputs), d)
  {
    hide FirstUnused, MarkUsed, SetPending, JoinedIn;
  }

  lemma UntoldRespond(w: World, c: Conn, answer: string, inputs: Inputs, d: Conn)
    requires IndexInv(w.ram) && c in w.ram.peers && c != d && d !in JoinedIn(w.ram, w.ram.peers[c].roomId)
    requires forall k :: k in inputs.order ==> k in w.ram.peers
    ensures Untold(w, Respond(w, c, answer, inputs), d)
  {
    var p, w1 := w.ram.peers[c], Answered(w, c);
    RespondCases(w, c, answer, inputs);
    PendingPlaces(w.ram, c, "", "");
    SamePlacesJoined(w.ram, w1.ram, p.roomId);
    SamePlacesIndex(w.ram, w1.ram);
    PlacesJoined(w.ram, w1.ram, c);
    hide IndexInv, JoinedIn, FinalizeJoin, Redeem, SamePlaces, Respond, IsRight, InsertToken, SetPending;
    if IsRight(w, c, answer) {
      UntoldJoin(w1, c, p.pendingToken, true, inputs.order, d);
    }
  }

  lemma UntoldRelay(cfg: Config, w: World, c: Conn, kind: string, payload: string, inputs: Inputs, d: Conn)
    requires c in w.ram.peers && c != d && d !in JoinedIn(w.ram, w.ram.peers[c].roomId)
    ensures Untold(w, Relay(cfg, w, c, kind, payload, inputs), d)
  {
    var p := w.ram.peers[c];
    UntoldBroadcast(w.ram, w.sent, p.roomId, Msg(p.peerId, payload, inputs.sentAt), {}, d);
    UntoldBroadcast(w.ram, w.sent, p.roomId, Presence(p.peerId, payload, inputs.sentAt), {c}, d);
    hide Broadcast, AppendCached, JoinedIn;
  }

  lemma UntoldMessage(cfg: Config, w: World, e: Event, d: Conn)
    requires IndexInv(w.ram) && e.Receive? && e.c in w.ram.peers && e.c != d
             && d !in JoinedIn(w.ram, w.ram.peers[e.c].roomId)
    requires forall k :: k in e.inputs.order ==> k in w.ram.peers
    ensures Untold(w, OnMessage(cfg, w, e.c, e.size, e.message, e.inputs), d)
  {
    hide IndexInv, JoinedIn, FinalizeJoin, IssueChallenge, Respond, Relay;
    if e.message.Some? {
      var m := e.message.value;
      UntoldIssue(w, e.c, e.inputs, d);
      UntoldJoin(w, e.c, m.token, false, e.inputs.order, d);
      UntoldRespond(w, e.c, m.plaintext, e.inputs, d);
      UntoldRelay(cfg, w, e.c, m.kind, m.payload, e.inputs, d);
    }
  }

  lemma UntoldClose(w: World, c: Conn, d: Conn)
    requires IndexInv(w.ram) && c in w.ram.peers && d !in JoinedIn(w.ram, w.ram.peers[c].roomId)
    ensures Untold(w, OnClose(w, c), d)
  {
    RemovePeerIndex(w.ram, c);
    var p, ram := w.ram.peers[c], RemovePeer(w.ram, c);
    hide IndexInv, JoinedIn, RemovePeer, Broadcast;
    UntoldBroadcast(ram, w.sent, p.roomId, PeerLeave(p.peerId), {}, d);
  }

  /** What a peer sends, and its going, reaches only itself and the joined connections of its room. */
  lemma OnlyRoomHears(cfg: Config, w: World, e: Event, c: Conn, d: Conn)
    requires Reachable(cfg, w) && Enabled(w, e) && c in w.ram.peers
    requires e == Closed(c) || (e.Receive? && e.c == c)
    requires d != c && d !in JoinedIn(w.ram, w.ram.peers[c].roomId)
    ensures LogOf(Step(cfg, w, e).sent, d) == LogOf(w.sent, d)
  {
    ReachableGood(cfg, w);
    hide Reachable, JoinedIn, OnMessage, OnClose;
    if e.Closed? {
      UntoldClose(w, c, d);
    } else {
      EnabledOrder(w, e);
      UntoldMessage(cfg, w, e, d);
    }
  }

  // ---------- counting tokens ----------

  /** The tokens of a room that are in the table. */
  function TokensOf(tokens: map<string, Room>, r: Room): set<string> {
    set t | t in tokens && tokens[t] == r
  }

  /** Each fresh token of a room has redeemed a challenge of its own, or answered a decoy; and the tokens in the table
      are fresh tokens. */
  ghost predicate Counted(w: World) {
    forall r :: CountedIn(w, r)
  }

  predicate CountedIn(w: World, r: Room) {
    && FreshTokens(w.rec, r) == |Redeemed(w.rec, r)| + DecoysAnswered(w.rec, r)
    && |TokensOf(w.db.tokens, r)| <= FreshTokens(w.rec, r)
  }

  predicate SameCounts(w: World, w': World) {
    && w'.rec.redeemed == w.rec.redeemed && w'.rec.freshTokens == w.rec.freshTokens
    && w'.rec.decoysAnswered == w.rec.decoysAnswered
    && forall t :: t in w'.db.tokens ==> t in w.db.tokens && w'.db.tokens[t] == w.db.tokens[t]
  }

  lemma CountedSame(w: World, w': World)
    requires Counted(w) && SameCounts(w, w')
    ensures Counted(w')
  {
    forall r ensures CountedIn(w', r) {
      assert CountedIn(w, r);
      SubsetSize(TokensOf(w'.db.tokens, r), TokensOf(w.db.tokens, r));
    }
  }

  lemma JoinCounts(w: World, c: Conn, token: string, isFresh: bool, order: seq<Conn>)
    requires c in w.ram.peers && forall d :: d in order ==> d in w.ram.peers
    ensures SameCounts(w, FinalizeJoin(w, c, token, isFresh, order))
  {
    hide PeerIdFromToken, Broadcast, Send, PeerIds;
  }

  lemma TokenAdded(tokens: map<string, Room>, token: string, room: Room, r: Room)
    requires token !in tokens
    ensures TokensOf(tokens[token := room], r) == TokensOf(tokens, r) + if r == room then {token} else {}
    ensures token !in TokensOf(tokens, r)
  {
  }

  lemma RedeemCounts(w: World, w': World, c: Conn, token: string, room: Room)
    requires Counted(w) && (c in w.rec.origin ==> w.rec.origin[c] !in Redeemed(w.rec, room))
    requires InsertToken(w.db, token, room) == Some(w'.db) && w'.rec == Redeem(w, c, token, room)
    ensures Counted(w')
  {
    forall r ensures CountedIn(w', r) {
      assert CountedIn(w, r);
      TokenAdded(w.db.tokens, token, room, r);
      RedeemedIn(w, c, token, room, r);
      hide TokensOf, Redeem;
    }
  }

  lemma RedeemedIn(w: World, c: Conn, token: string, room: Room, r: Room)
    requires c in w.rec.origin ==> w.rec.origin[c] !in Redeemed(w.rec, room)
    ensures var rec, one := Redeem(w, c, token, room), if r == room then 1 else 0;
            && FreshTokens(rec, r) == FreshTokens(w.rec, r) + one
            && |Redeemed(rec, r)| + DecoysAnswered(rec, r) == |Redeemed(w.rec, r)| + DecoysAnswered(w.rec, r) + one
  {
    assert Redeemed(w.rec, room) + {} == Redeemed(w.rec, room);
  }

  lemma RespondCounts(w: World, c: Conn, answer: string, inputs: Inputs)
    requires PoolInv(w) && Counted(w) && c in w.ram.peers && forall d :: d in inputs.order ==> d in w.ram.peers
    ensures Counted(Respond(w, c, answer, inputs))
  {
    var p, w1, w' := w.ram.peers[c], Answered(w, c), Respond(w, c, answer, inputs);
    assert OpenOk(w.ram, w.rec, c);
    RespondCases(w, c, answer, inputs);
    hide PoolInv, Counted, FinalizeJoin, Redeem, Respond;
    if IsRight(w, c, answer) {
      RedeemCounts(w, w1, c, p.pendingToken, p.roomId);
      JoinCounts(w1, c, p.pendingToken, true, inputs.order);
      CountedSame(w1, w');
    } else {
      CountedSame(w, w');
    }
  }

  lemma IssueCounts(w: World, c: Conn, inputs: Inputs)
    requires c in w.ram.peers
    ensures SameCounts(w, IssueChallenge(w, c, inputs))
  {
    hide Send, JoinedIn, FirstUnused, SetPending;
  }

  lemma RelayCounts(cfg: Config, w: World, c: Conn, kind: string, payload: string, inputs: Inputs)
    requires c in w.ram.peers
    ensures SameCounts(w, Relay(cfg, w, c, kind, payload, inputs))
  {
    RelayFrame(cfg, w, c, kind, payload, inputs);
    hide Relay;
  }

  /** What relaying leaves alone. */
  lemma RelayFrame(cfg: Config, w: World, c: Conn, kind: string, payload: string, inputs: Inputs)
    requires c in w.ram.peers
    ensures var w' := Relay(cfg, w, c, kind, payload, inputs);
            w'.db == w.db && w'.rec == w.rec.(messages := w'.rec.messages)
  {
    SendFrame(w, c, Error("bad_payload"));
    SendFrame(w, c, Error("payload_too_large"));
    hide SendTo, Broadcast, AppendCached, Messages;
  }

  predicate IsAnswer(w: World, e: Event) {
    && e.Receive? && IsUnjoined(w.ram, e.c) && e.message.Some? && e.message.value.kind == "challenge_response"
  }

  predicate IsUnjoined(ram: Ram, c: Conn) {
    c in ram.peers && !ram.peers[c].joined
  }

  /** Only an answer can record a fresh token. */
  lemma MessageCounts(cfg: Config, w: World, e: Event)
    requires e.Receive? && !IsAnswer(w, e) && forall d :: d in e.inputs.order ==> d in w.ram.peers
    ensures SameCounts(w, OnMessage(cfg, w, e.c, e.size, e.message, e.inputs))
  {
    hide FinalizeJoin, IssueChallenge, Relay, Respond, Send;
    if e.c in w.ram.peers && e.message.Some? {
      var m := e.message.value;
      if w.ram.peers[e.c].joined {
        RelayCounts(cfg, w, e.c, m.kind, m.payload, e.inputs);
      } else {
        IssueCounts(w, e.c, e.inputs);
        JoinCounts(w, e.c, m.token, false, e.inputs.order);
      }
    }
  }

  lemma RoomEventCounts(cfg: Config, w: World, e: Event)
    requires Enabled(w, e) && !e.Receive?
    ensures SameCounts(w, Step(cfg, w, e))
  {
    hide AddPeer, RemovePeer, Broadcast, Without, SendAll, NewRows, InRoom, DropCache, GoodPair, OnActivate, OnCreate;
    if e.Activate? {
      ActivateCounts(cfg, w, e.room, e.pairs);
    } else if e.Create? {
      CreateCounts(cfg, w, e.room, e.requiresPassword);
    }
  }

  lemma ActivateCounts(cfg: Config, w: World, room: Room, pairs: seq<ChallengePair>)
    ensures SameCounts(w, OnActivate(cfg, w, room, pairs))
  {
    hide NewRows, GoodPair;
  }

  lemma CreateCounts(cfg: Config, w: World, room: Room, requiresPassword: bool)
    ensures SameCounts(w, OnCreate(cfg, w, room, requiresPassword))
  {
  }

  lemma AnswerCounts(cfg: Config, w: World, e: Event)
    requires PoolInv(w) && Counted(w) && IsAnswer(w, e) && forall d :: d in e.inputs.order ==> d in w.ram.peers
    ensures Counted(OnMessage(cfg, w, e.c, e.size, e.message, e.inputs))
  {
    hide PoolInv, Counted, Respond;
    RespondCounts(w, e.c, e.message.value.plaintext, e.inputs);
    if e.size > cfg.wsMaxPayloadBytes {
      CountedSame(w, OnMessage(cfg, w, e.c, e.size, e.message, e.inputs));
    }
  }

  lemma StepCounts(cfg: Config, w: World, e: Event)
    requires PoolInv(w) && Counted(w) && Enabled(w, e)
    ensures Counted(Step(cfg, w, e))
  {
    hide PoolInv, Counted, OnMessage;
    if !e.Receive? {
      RoomEventCounts(cfg, w, e);
      CountedSame(w, Step(cfg, w, e));
    } else {
      EnabledOrder(w, e);
      if IsAnswer(w, e) {
        AnswerCounts(cfg, w, e);
      } else {
        MessageCounts(cfg, w, e);
        CountedSame(w, OnMessage(cfg, w, e.c, e.size, e.message, e.inputs));
      }
    }
  }

  lemma {:induction false} RunCounts(cfg: Config, w: World, es: seq<Event>, w': World)
    requires Good(cfg, w) && Counted(w) && IsRun(cfg, w, es, w')
    ensures Counted(w')
    decreases |es|
  {
    hide Good, Step, Enabled, Counted;
    if es != [] {
      PoolOfGood(cfg, w);
      StepKeeps(cfg, w, es[0]);
      StepCounts(cfg, w, es[0]);
      RunCounts(cfg, Step(cfg, w, es[0]), es[1..], w');
    }
  }

  /** A right answer to a decoy: the connection's last challenge came from no pool, and its token is recorded. */
  predicate AnswersDecoy(cfg: Config, w: World, e: Event, r: Room) {
    && IsAnswer(w, e) && e.size <= cfg.wsMaxPayloadBytes && w.ram.peers[e.c].roomId == r
    && IsRight(w, e.c, e.message.value.plaintext) && e.c !in w.rec.origin
  }

  lemma RespondDecoy(w: World, c: Conn, answer: string, inputs: Inputs, r: Room)
    requires c in w.ram.peers && forall d :: d in inputs.order ==> d in w.ram.peers
    ensures DecoysAnswered(Respond(w, c, answer, inputs).rec, r)
         == DecoysAnswered(w.rec, r) + if IsRight(w, c, answer) && c !in w.rec.origin
             && r == w.ram.peers[c].roomId then 1 else 0
  {
    RespondCases(w, c, answer, inputs);
    hide FinalizeJoin, Respond, IsRight, InsertToken;
    JoinCounts(Answered(w, c), c, w.ram.peers[c].pendingToken, true, inputs.order);
  }

  /** Decoys answered are counted exactly. */
  lemma DecoysCounted(cfg: Config, w: World, e: Event, r: Room)
    requires Enabled(w, e)
    ensures DecoysAnswered(Step(cfg, w, e).rec, r)
            == DecoysAnswered(w.rec, r) + if AnswersDecoy(cfg, w, e, r) then 1 else 0
  {
    hide OnMessage;
    if !e.Receive? {
      RoomEventCounts(cfg, w, e);
    } else {
      EnabledOrder(w, e);
      if IsAnswer(w, e) {
        AnswerDecoy(cfg, w, e, r);
      } else {
        MessageCounts(cfg, w, e);
      }
    }
  }

  lemma AnswerDecoy(cfg: Config, w: World, e: Event, r: Room)
    requires IsAnswer(w, e) && forall d :: d in e.inputs.order ==> d in w.ram.peers
    ensures DecoysAnswered(OnMessage(cfg, w, e.c, e.size, e.message, e.inputs).rec, r)
         == DecoysAnswered(w.rec, r) + if AnswersDecoy(cfg, w, e, r) then 1 else 0
  {
    hide Respond, Send;
    RespondDecoy(w, e.c, e.message.value.plaintext, e.inputs, r);
  }

  /** In every reachable state: the challenges of a room are handed out in the order in which they were put in, none
      twice; the unused rows in its table are those that have not been handed out; and there were as many as the room
      asks for. */
  lemma PoolInOrder(cfg: Config, w: World, r: Room)
    requires Reachable(cfg, w)
    ensures var pool, handed := IdsOf(w.rec.pool, r), IdsOf(w.rec.handedOut, r);
            && |handed| <= |pool| && handed == pool[..|handed|] && Increasing(pool)
            && (pool != [] ==> r in w.rec.quota && |pool| == w.rec.quota[r])
            && (r in w.db.rooms ==> Unused(w.db.challenges, r) == pool[|handed|..]
                                    && r in w.rec.quota && w.rec.quota[r] == Required(w.db.rooms[r]))
            && (r !in w.db.rooms ==> Unused(w.db.challenges, r) == [])
  {
    hide Good, Reachable;
    ReachableGood(cfg, w);
    PoolOfGood(cfg, w);
    PoolBounds(w, r);
    assert PoolOk(w.db, w.rec, r);
    hide Unused, PoolInv;
  }

  /** In every reachable state: the tokens of a room in the table are at most its fresh tokens, and those at most the
      challenges handed out and the decoys answered. If no answer equals a decoy, there are at most five or ten times
      as many tokens as participants. */
  lemma TokensBounded(cfg: Config, w: World, r: Room)
    requires Reachable(cfg, w)
    ensures var decoys := DecoysAnswered(w.rec, r);
            && |TokensOf(w.db.tokens, r)| <= FreshTokens(w.rec, r) <= |IdsOf(w.rec.handedOut, r)| + decoys
            && (r in w.db.rooms && IdsOf(w.rec.pool, r) != [] ==>
                |TokensOf(w.db.tokens, r)| <= Required(w.db.rooms[r]) + decoys)
  {
    hide Good, Reachable, PoolInv, Unused, TokensOf;
    PoolInOrder(cfg, w, r);
    ReachableGood(cfg, w);
    PoolOfGood(cfg, w);
    PoolBounds(w, r);
    ReachableCounted(cfg, w);
    assert CountedIn(w, r);
  }

  lemma ReachableCounted(cfg: Config, w: World)
    requires Reachable(cfg, w)
    ensures Counted(w)
  {
    StartGood(cfg);
    assert Counted(START) by {
      forall r ensures CountedIn(START, r) {
        assert TokensOf(START.db.tokens, r) == {};
      }
    }
    hide Good, IsRun, Counted;
    var es: seq<Event> :| IsRun(cfg, START, es, w);
    RunCounts(cfg, START, es, w);
  }

  lemma PoolOfGood(cfg: Config, w: World)
    requires Good(cfg, w)
    ensures PoolInv(w)
  {
  }
}
