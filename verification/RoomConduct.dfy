/** What each event means to those who are connected: who is sent what, who is let in, and what stays in the tables. The
    statements are about the logs and the tables before and after an event, in any state that can be reached. */
module RoomConduct {
  import opened Basics
  import opened RoomState
  import opened RoomInvariants
  import opened RoomPool
  import opened RoomRuns
  import Captcha
  import Difficulty
  import Sha256Spec

  /** The joined connections of a room. */
  function Members(w: World, room: Room): set<Conn> {
    set c | c in w.ram.peers && w.ram.peers[c].joined && w.ram.peers[c].roomId == room
  }

  /** The connections of a room, joined or not. */
  function Connections(w: World, room: Room): set<Conn> {
    set c | c in w.ram.peers && w.ram.peers[c].roomId == room
  }

  /** A connection is sent these frames, in this order, and no others. */
  predicate Hears(w: World, w': World, d: Conn, frames: seq<Frame>) {
    LogOf(w'.sent, d) == LogOf(w.sent, d) + frames
  }

  /** One connection is sent these frames, and nobody is sent anything else. */
  ghost predicate OnlyHears(w: World, w': World, c: Conn, frames: seq<Frame>) {
    Hears(w, w', c, frames) && forall d :: d != c ==> Untold(w, w', d)
  }

  /** These connections are sent one frame each, and nobody is sent anything else. */
  ghost predicate AllHear(w: World, w': World, group: set<Conn>, f: Frame) {
    && (forall d :: d in group ==> Hears(w, w', d, [f]))
    && (forall d :: d !in group ==> Untold(w, w', d))
  }

  ghost predicate NobodyHears(w: World, w': World) {
    forall d :: Untold(w, w', d)
  }

  lemma MembersJoined(cfg: Config, w: World, room: Room)
    requires Reachable(cfg, w)
    ensures Members(w, room) == JoinedIn(w.ram, room) && Connections(w, room) == InRoom(w.ram, room)
  {
    hide Good, Reachable;
    ReachableGood(cfg, w);
    IndexOfGood(cfg, w);
  }

  lemma SendHears(w: World, c: Conn, f: Frame)
    ensures OnlyHears(w, SendTo(w, c, f), c, [f])
  {
  }

  lemma RefuseHears(w: World, c: Conn, code: string)
    ensures OnlyHears(w, Refuse(w, c, code), c, [Error(code), Close(code)])
    ensures var w' := Refuse(w, c, code); w'.ram == w.ram && w'.db == w.db && w'.rec == w.rec
  {
    RefuseFrame(w, c, code);
    assert (LogOf(w.sent, c) + [Error(code)]) + [Close(code)] == LogOf(w.sent, c) + [Error(code), Close(code)];
  }

  lemma BroadcastHears(w: World, w': World, room: Room, f: Frame, except: set<Conn>)
    requires w'.sent == Broadcast(w.ram, w.sent, room, f, except)
    ensures AllHear(w, w', JoinedIn(w.ram, room) - except, f)
  {
    SendAllLogs(w.sent, JoinedIn(w.ram, room) - except, f);
    hide SendAll, JoinedIn;
  }

  /** The id of a peer is written in the digits of the first eight bytes of the hash of its token. */
  lemma IdOfToken(token: string)
    ensures Captcha.WritesBytes(PeerIdFromToken(token), Sha256Spec.Sha256(Difficulty.BytesOf(token))[..8])
  {
    hide Sha256Spec.Sha256, Captcha.HexOf, Captcha.WritesBytes;
    Captcha.HexOfWrites(Sha256Spec.Sha256(Difficulty.BytesOf(token))[..8]);
  }

  // ---------- messages that are not let through ----------

  /** A message that is read and comes from a connection of a room. */
  ghost predicate Read(cfg: Config, w: World, e: Event) {
    e.Receive? && Enabled(w, e) && e.size <= cfg.wsMaxPayloadBytes && e.c in w.ram.peers && e.message.Some?
  }

  /** A message that is too large, from nowhere or not readable, or of a kind that is not known, changes nothing; only
      its sender is told so, and a sender that has not joined is disconnected. */
  lemma TurnedAway(cfg: Config, w: World, e: Event)
    requires Enabled(w, e) && e.Receive?
    requires Read(cfg, w, e) ==>
               var kind := e.message.value.kind;
               if w.ram.peers[e.c].joined then kind != "msg" && kind != "presence"
               else kind != "hello" && kind != "challenge_response"
    ensures var w' := Step(cfg, w, e);
            && w'.ram == w.ram && w'.db == w.db && w'.rec == w.rec
            && OnlyHears(w, w', e.c,
                if e.size > cfg.wsMaxPayloadBytes then [Close("payload too large")]
                else if e.c !in w.ram.peers then [Close("no peer")]
                else if e.message.None? then [Error("bad_frame")]
                else if !w.ram.peers[e.c].joined then [Error("not_joined"), Close("not_joined")]
                else if e.message.value.kind == "ping" then [Pong]
                else [Error("unknown_type")])
  {
    EnabledOrder(w, e);
    RefuseHears(w, e.c, "not_joined");
    SendHears(w, e.c, Close("payload too large"));
    SendHears(w, e.c, Close("no peer"));
    SendHears(w, e.c, Error("bad_frame"));
    SendHears(w, e.c, Pong);
    SendHears(w, e.c, Error("unknown_type"));
    hide OnlyHears, Refuse, Hello, Respond, Relay;
  }

  // ---------- the first-time joiner ----------

  /** A hello without a token, from a connection that has not joined. */
  ghost predicate FirstHello(cfg: Config, w: World, e: Event) {
    Read(cfg, w, e) && !w.ram.peers[e.c].joined && e.message.value.kind == "hello" && e.message.value.token == ""
  }

  predicate IsUnused(w: World, room: Room, i: nat) {
    i < |w.db.challenges| && w.db.challenges[i].roomId == room && !w.db.challenges[i].used
  }

  /** The row with the least id among the unused rows of a room. */
  ghost predicate IsNext(w: World, room: Room, i: nat) {
    && IsUnused(w, room, i)
    && forall j: nat :: IsUnused(w, room, j) ==> w.db.challenges[i].id <= w.db.challenges[j].id
  }

  /** The room exists, has a place left, and has a challenge left. */
  ghost predicate Admits(w: World, room: Room) {
    && room in w.db.rooms && |Members(w, room)| < w.db.rooms[room].maxParticipants
    && exists i: nat :: IsUnused(w, room, i)
  }

  /** The connection is given the challenge of a pair: it is sent the ciphertext and the nonce, and the plaintext is
      expected from it. */
  ghost predicate IsGiven(w: World, w': World, c: Conn, token: string, pair: ChallengePair) {
    && OnlyHears(w, w', c, [Challenge(pair.ciphertext, pair.nonce)])
    && c in w.ram.peers
    && w'.ram == w.ram.(peers :=
        w.ram.peers[c := w.ram.peers[c].(pendingToken := token, expectedPlaintext := pair.plaintext)])
  }

  /** The first-time joiner is given the next challenge of its room if the room admits it, which is used up by this;
      otherwise a decoy, and nothing else happens. Nobody else hears of it. */
  lemma ChallengeSent(cfg: Config, w: World, e: Event)
    requires Reachable(cfg, w) && FirstHello(cfg, w, e)
    ensures var w', room, rows := Step(cfg, w, e), w.ram.peers[e.c].roomId, w.db.challenges;
            if Admits(w, room) then
              exists i: nat ::
                && IsNext(w, room, i) && IsGiven(w, w', e.c, e.inputs.newToken, rows[i].pair)
                && w'.db == w.db.(challenges := rows[i := rows[i].(used := true)])
            else IsGiven(w, w', e.c, e.inputs.newToken, e.inputs.decoy) && w'.db == w.db
  {
    var room := w.ram.peers[e.c].roomId;
    EnabledOrder(w, e);
    MembersJoined(cfg, w, room);
    IssueGives(w, e.c, e.inputs);
    IsIssue(cfg, w, e);
    hide Step, Reachable, IssueChallenge, IsGiven, FirstUnused, Members, JoinedIn;
    NextFound(w, room);
    if Admits(w, room) {
      FirstIsNext(cfg, w, room);
    }
  }

  lemma NextFound(w: World, room: Room)
    ensures FirstUnused(w.db.challenges, room).Some? <==> exists i: nat :: IsUnused(w, room, i)
  {
    var r := FirstUnused(w.db.challenges, room);
    if r.Some? {
      assert IsUnused(w, room, r.value);
    }
    hide FirstUnused;
  }

  lemma IsIssue(cfg: Config, w: World, e: Event)
    requires FirstHello(cfg, w, e)
    ensures Step(cfg, w, e) == IssueChallenge(w, e.c, e.inputs)
  {
    EnabledOrder(w, e);
    hide IssueChallenge;
  }

  lemma IssueGives(w: World, c: Conn, inputs: Inputs)
    requires c in w.ram.peers
    ensures var w', room := IssueChallenge(w, c, inputs), w.ram.peers[c].roomId;
            var next :=
              if room !in w.db.rooms || |JoinedIn(w.ram, room)| >= w.db.rooms[room].maxParticipants then None
              else FirstUnused(w.db.challenges, room);
            if next.None? then IsGiven(w, w', c, inputs.newToken, inputs.decoy) && w'.db == w.db
            else
              var row := w.db.challenges[next.value];
              && IsGiven(w, w', c, inputs.newToken, row.pair)
              && w'.db == w.db.(challenges := w.db.challenges[next.value := row.(used := true)])
  {
    hide FirstUnused, JoinedIn;
  }

  /** The first unused row of a room in its table has the least id. */
  lemma FirstIsNext(cfg: Config, w: World, room: Room)
    requires Reachable(cfg, w) && room in w.db.rooms && exists i: nat :: IsUnused(w, room, i)
    ensures FirstUnused(w.db.challenges, room).Some?
    ensures IsNext(w, room, FirstUnused(w.db.challenges, room).value)
  {
    hide Reachable;
    PoolInOrder(cfg, w, room);
    var rows := w.db.challenges;
    var k: nat :| IsUnused(w, room, k);
    var i := FirstUnused(rows, room).value;
    UnusedAfterFirst(rows, room, i, room);
    forall j: nat | IsUnused(w, room, j) ensures rows[i].id <= rows[j].id {
      UnusedListed(rows, room, j);
      var ids := Unused(rows, room);
      var m :| 0 <= m < |ids| && ids[m] == rows[j].id;
    }
  }

  lemma {:induction false} UnusedListed(rows: seq<ChallengeRow>, room: Room, j: nat)
    requires j < |rows| && rows[j].roomId == room && !rows[j].used
    ensures rows[j].id in Unused(rows, room)
  {
    if j < |rows| - 1 {
      UnusedListed(rows[..|rows| - 1], room, j);
    }
  }

  // ---------- joining ----------

  /** The connection joins as whom its token stands for: it is sent its id, the cached messages and the ids of those in
      the room, its token only if it is new; the other members are told its id, and nobody else anything. */
  ghost predicate Joins(w: World, w': World, c: Conn, token: string, shown: Option<string>, order: seq<Conn>) {
    && c in w.ram.peers
    && var p, id := w.ram.peers[c], PeerIdFromToken(token);
       && c in w'.ram.peers && w'.ram.peers - {c} == w.ram.peers - {c}
       && w'.ram.peers[c].peerId == id && w'.ram.peers[c].joined && w'.ram.peers[c].roomId == p.roomId
       && w'.ram.byRoom == w.ram.byRoom && w'.ram.msgCache == w.ram.msgCache
       && (exists members ::
             && IdsAre(w', order, members)
             && Hears(w, w', c, [Joined(id, shown, Recent(w.ram, p.roomId), members)]))
       && (forall d :: d != c && d in Members(w, p.roomId) ==> Hears(w, w', d, [PeerJoin(id)]))
       && (forall d :: d != c && d !in Members(w, p.roomId) ==> Untold(w, w', d))
  }

  /** The ids of some connections, in an order in which they are met. */
  predicate IdsAre(w: World, order: seq<Conn>, ids: seq<string>) {
    |ids| == |order| && forall i :: 0 <= i < |order| ==>
        order[i] in w.ram.peers && ids[i] == w.ram.peers[order[i]].peerId
  }

  /** The frames of a join. */
  lemma JoinLogs(w: World, c: Conn, token: string, isFresh: bool, order: seq<Conn>, ids: seq<string>)
    requires IndexInv(w.ram) && c in w.ram.peers && forall d :: d in order ==> d in w.ram.peers
    requires ids == PeerIds(MarkJoined(w.ram, c, PeerIdFromToken(token)), order)
    ensures var w', id, room := FinalizeJoin(w, c, token, isFresh, order), PeerIdFromToken(token),
            w.ram.peers[c].roomId;
            && Hears(w, w', c, [Joined(id, if isFresh then Some(token) else None, Recent(w.ram, room), ids)])
            && (forall d :: d != c && d in JoinedIn(w.ram, room) ==> Hears(w, w', d, [PeerJoin(id)]))
            && (forall d :: d != c && d !in JoinedIn(w.ram, room) ==> Untold(w, w', d))
  {
    var id, room := PeerIdFromToken(token), w.ram.peers[c].roomId;
    var joined := Joined(id, if isFresh then Some(token) else None, Recent(w.ram, room), ids);
    var others := JoinedIn(w.ram, room) - {c};
    JoinSends(w, c, token, isFresh, order);
    hide PeerIdFromToken, PeerIds, IndexInv, JoinedIn, SendAll, FinalizeJoin, Recent, Send;
    SendLogs(w.sent, c, joined);
    SendAllLogs(Send(w.sent, c, joined), others, PeerJoin(id));
    hide LogOf;
  }

  lemma JoinSends(w: World, c: Conn, token: string, isFresh: bool, order: seq<Conn>)
    requires IndexInv(w.ram) && c in w.ram.peers && forall d :: d in order ==> d in w.ram.peers
    ensures var id, room := PeerIdFromToken(token), w.ram.peers[c].roomId;
            var ids := PeerIds(MarkJoined(w.ram, c, id), order);
            var joined := Joined(id, if isFresh then Some(token) else None, Recent(w.ram, room), ids);
            FinalizeJoin(w, c, token, isFresh, order).sent
            == SendAll(Send(w.sent, c, joined), JoinedIn(w.ram, room) - {c}, PeerJoin(id))
  {
    hide PeerIdFromToken, PeerIds, IndexInv, JoinedIn, SendAll, Recent, Send;
    MarkJoinedIndex(w.ram, c, PeerIdFromToken(token));
    var room := w.ram.peers[c].roomId;
    assert (JoinedIn(w.ram, room) + {c}) - {c} == JoinedIn(w.ram, room) - {c};
  }

  lemma JoinPlaces(w: World, c: Conn, token: string, isFresh: bool, order: seq<Conn>)
    requires c in w.ram.peers && forall d :: d in order ==> d in w.ram.peers
    ensures var w' := FinalizeJoin(w, c, token, isFresh, order);
            && w'.ram == MarkJoined(w.ram, c, PeerIdFromToken(token)) && w'.db == w.db
            && w'.ram.peers - {c} == w.ram.peers - {c} && IdsAre(w', order, PeerIds(w'.ram, order))
  {
    hide PeerIdFromToken, Send, Broadcast, Recent;
  }

  lemma FinalizeJoins(w: World, c: Conn, token: string, isFresh: bool, order: seq<Conn>)
    requires IndexInv(w.ram) && c in w.ram.peers && forall d :: d in order ==> d in w.ram.peers
    ensures var w' := FinalizeJoin(w, c, token, isFresh, order);
            && Joins(w, w', c, token, if isFresh then Some(token) else None, order) && w'.db == w.db
            && w'.ram.peers[c].pendingToken == w.ram.peers[c].pendingToken
            && w'.ram.peers[c].expectedPlaintext == w.ram.peers[c].expectedPlaintext
  {
    var w', id, room := FinalizeJoin(w, c, token, isFresh, order), PeerIdFromToken(token), w.ram.peers[c].roomId;
    hide PeerIdFromToken, FinalizeJoin, Recent, PeerIds;
    JoinPlaces(w, c, token, isFresh, order);
    JoinLogs(w, c, token, isFresh, order, PeerIds(w'.ram, order));
    assert Members(w, room) == JoinedIn(w.ram, room);
    hide JoinedIn, Members, IdsAre, Hears;
  }

  /** A hello with a token, from a connection that has not joined. */
  ghost predicate Returns(cfg: Config, w: World, e: Event) {
    Read(cfg, w, e) && !w.ram.peers[e.c].joined && e.message.value.kind == "hello" && e.message.value.token != ""
  }

  /** A returning peer joins exactly if its token is recorded for the room of its connection; otherwise it is told that
      its key is invalid, and disconnected. */
  lemma TokenAccepted(cfg: Config, w: World, e: Event)
    requires Reachable(cfg, w) && Returns(cfg, w, e)
    ensures var w', token := Step(cfg, w, e), e.message.value.token;
            if token in w.db.tokens && w.db.tokens[token] == w.ram.peers[e.c].roomId
            then Joins(w, w', e.c, token, None, e.inputs.order) && w'.db == w.db
            else
              && OnlyHears(w, w', e.c, [Error("invalid_key"), Close("invalid_key")])
              && w'.ram == w.ram && w'.db == w.db
  {
    EnabledOrder(w, e);
    RefuseHears(w, e.c, "invalid_key");
    hide Reachable, FinalizeJoin, Joins, Refuse, OnlyHears, Good;
    ReachableGood(cfg, w);
    IndexOfGood(cfg, w);
    if e.message.value.token in w.db.tokens && w.db.tokens[e.message.value.token] == w.ram.peers[e.c].roomId {
      FinalizeJoins(w, e.c, e.message.value.token, false, e.inputs.order);
    }
  }

  /** An answer to a challenge, from a connection that has not joined. */
  ghost predicate Answers(cfg: Config, w: World, e: Event) {
    Read(cfg, w, e) && !w.ram.peers[e.c].joined && e.message.value.kind == "challenge_response"
  }

  /** The challenge of a connection is no longer open, and nothing else about it or others is changed. */
  predicate IsClosed(w: World, w': World, c: Conn) {
    c in w.ram.peers && w'.ram == w.ram.(peers :=
        w.ram.peers[c := w.ram.peers[c].(pendingToken := "", expectedPlaintext := "")])
  }

  /** An answer is used up with its challenge. Exactly if it is the plaintext expected from this connection, and the new
      token can be recorded for its room, the token is recorded and the connection joins with it; in all other cases
      the peer is told why not, and disconnected. */
  lemma AnswerAccepted(cfg: Config, w: World, e: Event)
    requires Reachable(cfg, w) && Answers(cfg, w, e)
    ensures var w', p, answer := Step(cfg, w, e), w.ram.peers[e.c], e.message.value.plaintext;
            if p.expectedPlaintext == "" then
              && OnlyHears(w, w', e.c, [Error("no_challenge"), Close("no_challenge")])
              && w'.ram == w.ram && w'.db == w.db
            else if answer != p.expectedPlaintext then
              && OnlyHears(w, w', e.c, [Error("invalid_key"), Close("invalid_key")])
              && IsClosed(w, w', e.c) && w'.db == w.db
            else if p.pendingToken in w.db.tokens || p.roomId !in w.db.rooms then
              && OnlyHears(w, w', e.c, [Error("internal"), Close("internal")])
              && IsClosed(w, w', e.c) && w'.db == w.db
            else
              && Joins(w, w', e.c, p.pendingToken, Some(p.pendingToken), e.inputs.order)
              && w'.ram.peers[e.c].pendingToken == "" && w'.ram.peers[e.c].expectedPlaintext == ""
              && w'.db == w.db.(tokens := w.db.tokens[p.pendingToken := p.roomId])
  {
    var c, p, answer := e.c, w.ram.peers[e.c], e.message.value.plaintext;
    var w1 := w.(ram := SetPending(w.ram, c, "", ""));
    EnabledOrder(w, e);
    PendingTogether(cfg, w, c);
    RefuseHears(w, c, "no_challenge");
    RefuseHears(w1, c, "invalid_key");
    RefuseHears(w1, c, "internal");
    IsRespond(cfg, w, e);
    hide Step, Reachable, FinalizeJoin, Refuse, Good, Redeem, OnlyHears, Joins;
    SameSent(w, w1, Refuse(w1, c, "invalid_key"), c);
    SameSent(w, w1, Refuse(w1, c, "internal"), c);
    if IsRight(w, c, answer) {
      RespondRight(w, c, answer, e.inputs);
      RightJoins(cfg, w, c, e.inputs);
    }
  }

  lemma IsRespond(cfg: Config, w: World, e: Event)
    requires Answers(cfg, w, e)
    ensures (forall d :: d in e.inputs.order ==> d in w.ram.peers)
    ensures Step(cfg, w, e) == Respond(w, e.c, e.message.value.plaintext, e.inputs)
  {
    EnabledOrder(w, e);
    hide Respond;
  }

  /** What is heard depends on what was sent before only. */
  lemma SameSent(w: World, w1: World, w': World, c: Conn)
    requires w1.sent == w.sent
    ensures forall frames :: OnlyHears(w1, w', c, frames) ==> OnlyHears(w, w', c, frames)
  {
    assert forall d :: Untold(w1, w', d) ==> Untold(w, w', d);
  }

  lemma RightJoins(cfg: Config, w: World, c: Conn, inputs: Inputs)
    requires Reachable(cfg, w) && c in w.ram.peers && forall d :: d in inputs.order ==> d in w.ram.peers
    requires var p := w.ram.peers[c]; p.pendingToken !in w.db.tokens && p.roomId in w.db.rooms
    ensures c in Answered(w, c).ram.peers && forall d :: d in inputs.order ==> d in Answered(w, c).ram.peers
    ensures var p := w.ram.peers[c];
            var w' := FinalizeJoin(Answered(w, c), c, p.pendingToken, true, inputs.order);
            && Joins(w, w', c, p.pendingToken, Some(p.pendingToken), inputs.order)
            && w'.ram.peers[c].pendingToken == "" && w'.ram.peers[c].expectedPlaintext == ""
            && w'.db == w.db.(tokens := w.db.tokens[p.pendingToken := p.roomId])
  {
    var p, w1 := w.ram.peers[c], Answered(w, c);
    AnsweredIs(w, c);
    assert w1.ram == SetPending(w.ram, c, "", "") && w1.sent == w.sent;
    assert w1.db == w.db.(tokens := w.db.tokens[p.pendingToken := p.roomId]);
    hide Reachable, FinalizeJoin, Good, Redeem, Joins, Answered;
    ReachableGood(cfg, w);
    IndexOfGood(cfg, w);
    PendingPlaces(w.ram, c, "", "");
    SamePlacesIndex(w.ram, w1.ram);
    FinalizeJoins(w1, c, p.pendingToken, true, inputs.order);
    JoinsBefore(w, w1, FinalizeJoin(w1, c, p.pendingToken, true, inputs.order), c, p.pendingToken, inputs.order);
  }

  lemma JoinsBefore(w: World, w1: World, w': World, c: Conn, token: string, order: seq<Conn>)
    requires c in w.ram.peers && w1.ram == SetPending(w.ram, c, "", "") && w1.sent == w.sent
    requires Joins(w1, w', c, token, Some(token), order)
    ensures Joins(w, w', c, token, Some(token), order)
  {
    var room := w.ram.peers[c].roomId;
    assert w1.ram.peers - {c} == w.ram.peers - {c};
    forall d | d != c ensures d in Members(w, room) <==> d in Members(w1, room) {
    }
    hide PeerIdFromToken, Members;
    var members :| IdsAre(w', order, members)
        && Hears(w1, w', c, [Joined(PeerIdFromToken(token), Some(token), Recent(w1.ram, room), members)]);
    assert Recent(w1.ram, room) == Recent(w.ram, room);
    assert Hears(w, w', c, [Joined(PeerIdFromToken(token), Some(token), Recent(w.ram, room), members)]);
    forall d | d != c && d in Members(w, room) ensures Hears(w, w', d, [PeerJoin(PeerIdFromToken(token))]) {
      assert Hears(w1, w', d, [PeerJoin(PeerIdFromToken(token))]);
    }
    forall d | d != c && d !in Members(w, room) ensures Untold(w, w', d) {
      assert Untold(w1, w', d);
    }
  }

  // ---------- relaying ----------

  /** A message or a presence frame, from a joined connection. */
  ghost predicate Speaks(cfg: Config, w: World, e: Event) {
    && Read(cfg, w, e) && w.ram.peers[e.c].joined
    && (e.message.value.kind == "msg" || e.message.value.kind == "presence")
  }

  /** What a joined peer says reaches every joined connection of its room once, with its id, its payload as it
      stands and the time of the server: a message its sender as well, a presence frame everybody but its sender. If the
      payload is empty or too large, only the sender is told. The tables and the peers stay as they are. */
  lemma SpeechRelayed(cfg: Config, w: World, e: Event)
    requires Reachable(cfg, w) && Speaks(cfg, w, e)
    ensures var w', p, m := Step(cfg, w, e), w.ram.peers[e.c], e.message.value;
            && w'.db == w.db && w'.ram.peers == w.ram.peers && w'.ram.byRoom == w.ram.byRoom
            && (if m.payload == "" then OnlyHears(w, w', e.c, [Error("bad_payload")])
                else if |m.payload| > cfg.wsMaxPayloadBytes then OnlyHears(w, w', e.c, [Error("payload_too_large")])
                else if m.kind == "msg" then
                  AllHear(w, w', Members(w, p.roomId), Msg(p.peerId, m.payload, e.inputs.sentAt))
                else AllHear(w, w', Members(w, p.roomId) - {e.c}, Presence(p.peerId, m.payload, e.inputs.sentAt)))
  {
    var w', p, m := Step(cfg, w, e), w.ram.peers[e.c], e.message.value;
    EnabledOrder(w, e);
    MembersJoined(cfg, w, p.roomId);
    SendHears(w, e.c, Error("bad_payload"));
    SendHears(w, e.c, Error("payload_too_large"));
    hide Reachable, OnlyHears, AllHear, JoinedIn, Members, Broadcast, LastOf;
    assert JoinedIn(w.ram, p.roomId) - {} == JoinedIn(w.ram, p.roomId);
    if m.payload != "" && |m.payload| <= cfg.wsMaxPayloadBytes {
      if m.kind == "msg" {
        BroadcastHears(w, w', p.roomId, Msg(p.peerId, m.payload, e.inputs.sentAt), {});
      } else {
        BroadcastHears(w, w', p.roomId, Presence(p.peerId, m.payload, e.inputs.sentAt), {e.c});
      }
    }
  }

  // ---------- coming and going ----------

  /** When a connection ends, its peer goes; if it had joined, the others in its room are told so once. A second report
      of the same end changes nothing. */
  lemma Goes(cfg: Config, w: World, c: Conn)
    requires Reachable(cfg, w) && Enabled(w, Closed(c))
    ensures var w' := Step(cfg, w, Closed(c));
            if c !in w.ram.peers then w' == w
            else
              var p := w.ram.peers[c];
              && w'.ram.peers == w.ram.peers - {c} && w'.ram.msgCache == w.ram.msgCache && w'.db == w.db
              && (if p.joined then AllHear(w, w', Members(w, p.roomId) - {c}, PeerLeave(p.peerId))
                  else NobodyHears(w, w'))
  {
    hide Reachable, Good;
    if c in w.ram.peers {
      var p, ram := w.ram.peers[c], RemovePeer(w.ram, c);
      MembersJoined(cfg, w, p.roomId);
      ReachableGood(cfg, w);
      IndexOfGood(cfg, w);
      RemovePeerIndex(w.ram, c);
      OthersUntouched(w.ram, c);
      hide JoinedIn, Members, RemovePeer, Broadcast, AllHear, IndexInv;
      if p.joined {
        var gone := w.(ram := ram);
        BroadcastHears(gone, Step(cfg, w, Closed(c)), p.roomId, PeerLeave(p.peerId), {});
        assert JoinedIn(ram, p.roomId) - {} == JoinedIn(ram, p.roomId);
        SameAudience(w, gone, Step(cfg, w, Closed(c)), Members(w, p.roomId) - {c}, PeerLeave(p.peerId));
      }
    }
  }

  lemma SameAudience(w: World, w1: World, w': World, group: set<Conn>, f: Frame)
    requires w1.sent == w.sent && AllHear(w1, w', group, f)
    ensures AllHear(w, w', group, f)
  {
    assert forall d :: Untold(w1, w', d) ==> Untold(w, w', d);
    assert forall d :: Hears(w1, w', d, [f]) ==> Hears(w, w', d, [f]);
  }

  /** A connection that opens is a peer of its room that has not joined; nobody hears of it. */
  lemma Comes(cfg: Config, w: World, c: Conn, room: Room, peerId: string)
    requires Reachable(cfg, w) && Enabled(w, Accept(c, room, peerId))
    ensures var w' := Step(cfg, w, Accept(c, room, peerId));
            && w'.ram.peers == w.ram.peers[c := Peer(peerId, room, false, "", "")] && c !in w.ram.peers
            && w'.ram.msgCache == w.ram.msgCache && w'.db == w.db && NobodyHears(w, w')
  {
    hide Reachable, Good;
    ReachableGood(cfg, w);
    DepartOfReachable(cfg, w, c);
  }

  // ---------- rooms ----------

  /** A room is closed by a purge, or by one of its own tokens. */
  predicate ClosesRoom(w: World, e: Event, room: Room) {
    e == Purge(room) || (e.Delete? && e.room == room && e.token != "" && e.token in w.db.tokens
        && w.db.tokens[e.token] == room)
  }

  lemma {:induction false} WithoutRows(rows: seq<ChallengeRow>, room: Room, row: ChallengeRow)
    ensures row in Without(rows, room) <==> row in rows && row.roomId != room
  {
    if rows != [] {
      assert rows == rows[..|rows| - 1] + [rows[|rows| - 1]];
      WithoutRows(rows[..|rows| - 1], room, row);
    }
  }

  /** Closing a room: every connection in it, joined or not, is told so and disconnected, and nobody else; the room, its
      challenges and its tokens are gone, those of other rooms are not,
          and its cached messages are dropped. An attempt to
      delete it without one of its tokens changes nothing. */
  lemma RoomCloses(cfg: Config, w: World, e: Event)
    requires Reachable(cfg, w) && Enabled(w, e) && (e.Delete? || e.Purge?)
    ensures var w' := Step(cfg, w, e);
            if !ClosesRoom(w, e, e.room) then w' == w
            else
              && (forall d :: d in Connections(w, e.room) ==> Hears(w, w', d, [Deleted, Close("room deleted")]))
              && (forall d :: d !in Connections(w, e.room) ==> Untold(w, w', d))
              && w'.ram == w.ram.(msgCache := w.ram.msgCache - {e.room})
              && w'.db.rooms == w.db.rooms - {e.room}
              && (forall row :: row in w'.db.challenges <==> row in w.db.challenges && row.roomId != e.room)
              && (forall t :: t in w'.db.tokens <==> t in w.db.tokens && w.db.tokens[t] != e.room)
              && (forall t :: t in w'.db.tokens ==> w'.db.tokens[t] == w.db.tokens[t])
  {
    if ClosesRoom(w, e, e.room) {
      var w' := Step(cfg, w, e);
      assert w' == CloseAndDelete(w, e.room);
      MembersJoined(cfg, w, e.room);
      SendAllLogs(w.sent, InRoom(w.ram, e.room), Deleted);
      SendAllLogs(SendAll(w.sent, InRoom(w.ram, e.room), Deleted), InRoom(w.ram, e.room), Close("room deleted"));
      hide Reachable, SendAll, InRoom, Connections, Without;
      forall row ensures row in w'.db.challenges <==> row in w.db.challenges && row.roomId != e.room {
        WithoutRows(w.db.challenges, e.room, row);
      }
      forall d | d in Connections(w, e.room) ensures Hears(w, w', d, [Deleted, Close("room deleted")]) {
        assert (LogOf(w.sent, d) + [Deleted]) + [Close("room deleted")]
            == LogOf(w.sent, d) + [Deleted, Close("room deleted")];
      }
    }
  }

  /** A room is created, with no challenges and not activated, exactly if there is none of that id and the cap on the
      number of rooms is not reached; nobody hears of it. */
  lemma RoomCreated(cfg: Config, w: World, e: Event)
    requires Enabled(w, e) && e.Create?
    ensures var w' := Step(cfg, w, e);
            && w'.ram == w.ram && w'.sent == w.sent
            && w'.db.challenges == w.db.challenges && w'.db.tokens == w.db.tokens && w'.db.nextId == w.db.nextId
            && (if e.room in w.db.rooms || (cfg.totalRoomsCap > 0 && |w.db.rooms| >= cfg.totalRoomsCap)
                then w'.db.rooms == w.db.rooms
                else
                  && w'.db.rooms.Keys == w.db.rooms.Keys + {e.room}
                  && (forall r :: r in w.db.rooms ==> w'.db.rooms[r] == w.db.rooms[r])
                  && !w'.db.rooms[e.room].activated && w'.db.rooms[e.room].requiresPassword == e.requiresPassword
                  && w'.db.rooms[e.room].maxParticipants <= cfg.maxParticipants
                  && w'.db.rooms[e.room].maxParticipants <= cfg.maxParticipantsCap
                  && w'.db.rooms[e.room].maxParticipants in {cfg.maxParticipants, cfg.maxParticipantsCap})
  {
  }

  /** The texts of a pair are there, and none is longer than the blobs it encodes may make it. */
  predicate FitsBlobs(cfg: Config, pair: ChallengePair) {
    forall s :: s in [pair.plaintext, pair.ciphertext, pair.nonce] ==> 0 < |s| <= 2 * cfg.challengeMaxBlobBytes
  }

  /** A room can be activated once, with as many pairs as it asks for: five for each participant, or ten if it requires
      a password. */
  ghost predicate CanActivate(cfg: Config, w: World, room: Room, pairs: seq<ChallengePair>) {
    && room in w.db.rooms && !w.db.rooms[room].activated
    && |pairs| == w.db.rooms[room].maxParticipants * (if w.db.rooms[room].requiresPassword then 10 else 5)
    && forall pair :: pair in pairs ==> FitsBlobs(cfg, pair)
  }

  /** Activation: the pool goes in whole, behind all other rows, unused and in its order, with ids larger than all
      ids that were given before; otherwise nothing changes. */
  lemma RoomActivated(cfg: Config, w: World, e: Event)
    requires Enabled(w, e) && e.Activate?
    ensures var w' := Step(cfg, w, e);
            if !CanActivate(cfg, w, e.room, e.pairs) then w' == w
            else
              && w'.ram == w.ram && w'.sent == w.sent && w'.db.tokens == w.db.tokens
              && w'.db.rooms == w.db.rooms[e.room := w.db.rooms[e.room].(activated := true)]
              && |w'.db.challenges| == |w.db.challenges| + |e.pairs| && w.db.challenges <= w'.db.challenges
              && (forall i :: 0 <= i < |e.pairs| ==>
                    w'.db.challenges[|w.db.challenges| + i]
                    == ChallengeRow(w.db.nextId + i, e.room, e.pairs[i], false))
              && w'.db.nextId == w.db.nextId + |e.pairs|
  {
    ActivationIs(cfg, w, e.room, e.pairs);
    hide CanActivate, OnActivate, InsertChallenges;
    if CanActivate(cfg, w, e.room, e.pairs) {
      PoolGoesIn(w.db, e.room, e.pairs);
    }
  }

  lemma ActivationIs(cfg: Config, w: World, room: Room, pairs: seq<ChallengePair>)
    ensures var w' := OnActivate(cfg, w, room, pairs);
            if !CanActivate(cfg, w, room, pairs) then w' == w
            else
              && room in w.db.rooms && w'.ram == w.ram && w'.sent == w.sent
              && (InsertChallenges(w.db, room, pairs).Some? ==>
                    var db := InsertChallenges(w.db, room, pairs).value;
                    db.rooms == w.db.rooms ==>
                      w'.db == db.(rooms := db.rooms[room := db.rooms[room].(activated := true)]))
  {
    ActivationGuard(cfg, w, room, pairs);
    hide GoodPair, Required, InsertChallenges, CanActivate;
    if CanActivate(cfg, w, room, pairs) {
      assert !exists i :: 0 <= i < |pairs| && !GoodPair(cfg, pairs[i]);
    }
  }

  lemma ActivationGuard(cfg: Config, w: World, room: Room, pairs: seq<ChallengePair>)
    ensures CanActivate(cfg, w, room, pairs) <==>
              && room in w.db.rooms && !w.db.rooms[room].activated && |pairs| == Required(w.db.rooms[room])
              && forall i :: 0 <= i < |pairs| ==> GoodPair(cfg, pairs[i])
  {
    forall pair ensures GoodPair(cfg, pair) <==> FitsBlobs(cfg, pair) {
      PairFits(cfg, pair);
    }
    hide GoodPair, FitsBlobs;
    if forall pair :: pair in pairs ==> FitsBlobs(cfg, pair) {
      forall i | 0 <= i < |pairs| ensures GoodPair(cfg, pairs[i]) {
        assert pairs[i] in pairs;
      }
    }
  }

  lemma PoolGoesIn(db: Db, room: Room, pairs: seq<ChallengePair>)
    requires room in db.rooms
    ensures InsertChallenges(db, room, pairs).Some?
    ensures var db' := InsertChallenges(db, room, pairs).value;
            && db'.rooms == db.rooms && db'.tokens == db.tokens && db'.nextId == db.nextId + |pairs|
            && |db'.challenges| == |db.challenges| + |pairs| && db.challenges <= db'.challenges
            && (forall i :: 0 <= i < |pairs| ==>
                  db'.challenges[|db.challenges| + i] == ChallengeRow(db.nextId + i, room, pairs[i], false))
  {
    var rows := NewRows(room, pairs, db.nextId);
    hide NewRows;
    assert forall i :: 0 <= i < |pairs| ==> (db.challenges + rows)[|db.challenges| + i] == rows[i];
  }

  lemma PairFits(cfg: Config, pair: ChallengePair)
    ensures GoodPair(cfg, pair) <==> FitsBlobs(cfg, pair)
  {
    var texts := [pair.plaintext, pair.ciphertext, pair.nonce];
    assert texts[0] in texts && texts[1] in texts && texts[2] in texts;
  }

  // ---------- open challenges, over runs ----------

  /** The last challenge that a connection was sent. */
  function LastChallenge(log: seq<Frame>): Option<(string, string)> {
    if log == [] then None
    else
      var last := log[|log| - 1];
      if last.Challenge? then Some((last.ciphertext, last.nonce)) else LastChallenge(log[..|log| - 1])
  }

  /** A pair was offered for a room: put into its pool, or drawn as a decoy for this connection. */
  ghost predicate Offered(past: seq<Event>, c: Conn, room: Room, pair: ChallengePair) {
    exists e :: e in past && ((e.Activate? && e.room == room && pair in e.pairs)
                              || (e.Receive? && e.c == c && pair == e.inputs.decoy))
  }

  /** What is expected from a connection belongs to the challenge that it was sent last. */
  ghost predicate Matching(past: seq<Event>, w: World, c: Conn) {
    c in w.ram.peers && w.ram.peers[c].pendingToken != "" ==>
      exists pair ::
        && Offered(past, c, w.ram.peers[c].roomId, pair) && w.ram.peers[c].expectedPlaintext == pair.plaintext
        && LastChallenge(LogOf(w.sent, c)) == Some((pair.ciphertext, pair.nonce))
  }

  /** The rows of the table were put in by an activation of their room. */
  ghost predicate RowPut(past: seq<Event>, row: ChallengeRow) {
    exists e :: e in past && e.Activate? && e.room == row.roomId && row.pair in e.pairs
  }

  ghost predicate ChallengesInv(past: seq<Event>, w: World) {
    && (forall row :: row in w.db.challenges ==> RowPut(past, row))
    && (forall c :: Matching(past, w, c))
  }

  lemma OfferedStays(past: seq<Event>, e: Event, c: Conn, room: Room, pair: ChallengePair)
    requires Offered(past, c, room, pair)
    ensures Offered(past + [e], c, room, pair)
  {
    var x :| x in past && ((x.Activate? && x.room == room && pair in x.pairs)
                           || (x.Receive? && x.c == c && pair == x.inputs.decoy));
    assert x in past + [e];
  }

  lemma RowStays(past: seq<Event>, e: Event, row: ChallengeRow)
    requires RowPut(past, row)
    ensures RowPut(past + [e], row.(used := true)) && RowPut(past + [e], row)
  {
    var x :| x in past && x.Activate? && x.room == row.roomId && row.pair in x.pairs;
    assert x in past + [e];
  }

  /** Frames that are no challenges leave the last challenge as it is. */
  lemma {:induction false} ChallengeStays(log: seq<Frame>, frames: seq<Frame>)
    requires forall i :: 0 <= i < |frames| ==> !frames[i].Challenge?
    ensures LastChallenge(log + frames) == LastChallenge(log)
    decreases |frames|
  {
    if frames == [] {
      assert log + frames == log;
    } else {
      assert (log + frames)[..|log + frames| - 1] == log + frames[..|frames| - 1];
      ChallengeStays(log, frames[..|frames| - 1]);
    }
  }

  /** A connection whose challenge, room and log as to challenges stay as they are. */
  ghost predicate KeepsChallenge(w: World, w': World, c: Conn) {
    c in w'.ram.peers && w'.ram.peers[c].pendingToken != "" ==>
      && c in w.ram.peers && w'.ram.peers[c].roomId == w.ram.peers[c].roomId
      && w'.ram.peers[c].pendingToken == w.ram.peers[c].pendingToken
      && w'.ram.peers[c].expectedPlaintext == w.ram.peers[c].expectedPlaintext
      && LastChallenge(LogOf(w'.sent, c)) == LastChallenge(LogOf(w.sent, c))
  }

  lemma MatchingStays(past: seq<Event>, e: Event, w: World, w': World, c: Conn)
    requires Matching(past, w, c) && KeepsChallenge(w, w', c)
    ensures Matching(past + [e], w', c)
  {
    hide LastChallenge, Offered;
    if c in w'.ram.peers && w'.ram.peers[c].pendingToken != "" {
      var pair :| && Offered(past, c, w.ram.peers[c].roomId, pair)
                  && w.ram.peers[c].expectedPlaintext == pair.plaintext
                  && LastChallenge(LogOf(w.sent, c)) == Some((pair.ciphertext, pair.nonce));
      OfferedStays(past, e, c, w.ram.peers[c].roomId, pair);
    }
  }

  /** Every event but a first hello leaves every open challenge as it is, or closes it. */
  lemma OthersKeepChallenges(cfg: Config, w: World, e: Event, c: Conn)
    requires Reachable(cfg, w) && Enabled(w, e) && !FirstHello(cfg, w, e)
    ensures KeepsChallenge(w, Step(cfg, w, e), c)
  {
    var w' := Step(cfg, w, e);
    hide Reachable, Step, Enabled, Joins, Members, Connections, PeerIdFromToken, LastChallenge, Recent, CanActivate,
        ClosesRoom, FirstHello;
    match e
    case Accept(d, room, peerId) =>
      Comes(cfg, w, d, room, peerId);
    case Closed(d) => GoingKeeps(cfg, w, d, c);
    case Create(_, _) => RoomCreated(cfg, w, e);
    case Activate(_, _) => RoomActivated(cfg, w, e);
    case Delete(_, _) => ClosingKeeps(cfg, w, e, c);
    case Purge(_) => ClosingKeeps(cfg, w, e, c);
    case Receive(_, _, _, _) =>
      MessageKeepsChallenge(cfg, w, e, c);
  }

  lemma JoinKeepsChallenge(w: World, w': World, d: Conn, token: string, shown: Option<string>, order: seq<Conn>,
      c: Conn)
    requires Joins(w, w', d, token, shown, order)
    requires w'.ram.peers[d].pendingToken != "" ==>
               && w'.ram.peers[d].pendingToken == w.ram.peers[d].pendingToken
               && w'.ram.peers[d].expectedPlaintext == w.ram.peers[d].expectedPlaintext
    ensures KeepsChallenge(w, w', c)
  {
    JoinLeavesChallenge(w, w', d, token, shown, order, c);
    hide PeerIdFromToken, LastChallenge, Members, Recent, Hears, IdsAre;
    if c != d && c in w'.ram.peers {
      assert c in w'.ram.peers - {d};
      assert (w'.ram.peers - {d})[c] == (w.ram.peers - {d})[c];
    }
  }

  lemma JoinLeavesChallenge(w: World, w': World, d: Conn, token: string, shown: Option<string>, order: seq<Conn>,
      c: Conn)
    requires Joins(w, w', d, token, shown, order)
    ensures LastChallenge(LogOf(w'.sent, c)) == LastChallenge(LogOf(w.sent, c))
  {
    var id, room := PeerIdFromToken(token), w.ram.peers[d].roomId;
    hide PeerIdFromToken, LastChallenge, Members, Recent, LogOf, IdsAre, Hears;
    var members :| IdsAre(w', order, members) && Hears(w, w', d, [Joined(id, shown, Recent(w.ram, room), members)]);
    if c == d {
      HeardOne(w, w', c, Joined(id, shown, Recent(w.ram, room), members));
    } else if c in Members(w, room) {
      HeardOne(w, w', c, PeerJoin(id));
    } else {
      assert Untold(w, w', c);
    }
  }

  lemma HeardOne(w: World, w': World, c: Conn, f: Frame)
    requires Hears(w, w', c, [f]) && !f.Challenge?
    ensures LastChallenge(LogOf(w'.sent, c)) == LastChallenge(LogOf(w.sent, c))
  {
    ChallengeStays(LogOf(w.sent, c), [f]);
    hide LastChallenge, LogOf;
  }

  /** Frames that are sent to one connection, and the others. */
  lemma HeardKeeps(w: World, w': World, d: Conn, frames: seq<Frame>, c: Conn)
    requires OnlyHears(w, w', d, frames) && forall i :: 0 <= i < |frames| ==> !frames[i].Challenge?
    ensures LastChallenge(LogOf(w'.sent, c)) == LastChallenge(LogOf(w.sent, c))
  {
    hide LastChallenge, LogOf;
    ChallengeStays(LogOf(w.sent, c), frames);
    assert c == d || Untold(w, w', c);
  }

  lemma AudienceKeeps(w: World, w': World, group: set<Conn>, f: Frame, c: Conn)
    requires AllHear(w, w', group, f) && !f.Challenge?
    ensures LastChallenge(LogOf(w'.sent, c)) == LastChallenge(LogOf(w.sent, c))
  {
    hide LastChallenge, LogOf;
    if c in group {
      HeardOne(w, w', c, f);
    } else {
      assert Untold(w, w', c);
    }
  }

  lemma ClosingKeeps(cfg: Config, w: World, e: Event, c: Conn)
    requires Reachable(cfg, w) && Enabled(w, e) && (e.Delete? || e.Purge?)
    ensures KeepsChallenge(w, Step(cfg, w, e), c)
  {
    var w' := Step(cfg, w, e);
    RoomCloses(cfg, w, e);
    hide Reachable, Step, Enabled, Connections, LastChallenge, LogOf, ClosesRoom;
    ChallengeStays(LogOf(w.sent, c), [Deleted, Close("room deleted")]);
    if ClosesRoom(w, e, e.room) {
      assert c in Connections(w, e.room) ==> Hears(w, w', c, [Deleted, Close("room deleted")]);
      assert c !in Connections(w, e.room) ==> Untold(w, w', c);
    }
  }

  lemma GoingKeeps(cfg: Config, w: World, d: Conn, c: Conn)
    requires Reachable(cfg, w) && Enabled(w, Closed(d))
    ensures KeepsChallenge(w, Step(cfg, w, Closed(d)), c)
  {
    var w' := Step(cfg, w, Closed(d));
    Goes(cfg, w, d);
    hide Reachable, Step, Enabled, Members, LastChallenge, LogOf, AllHear;
    if d in w.ram.peers {
      var p := w.ram.peers[d];
      if p.joined {
        AudienceKeeps(w, w', Members(w, p.roomId) - {d}, PeerLeave(p.peerId), c);
      } else {
        assert Untold(w, w', c);
      }
    }
  }

  lemma ReturnKeeps(cfg: Config, w: World, e: Event, c: Conn)
    requires Reachable(cfg, w) && Returns(cfg, w, e)
    ensures KeepsChallenge(w, Step(cfg, w, e), c)
  {
    var w', token := Step(cfg, w, e), e.message.value.token;
    TokenAccepted(cfg, w, e);
    ReturnKeepsPending(cfg, w, e);
    hide Reachable, Step, Enabled, Joins, LastChallenge, OnlyHears, LogOf;
    if token in w.db.tokens && w.db.tokens[token] == w.ram.peers[e.c].roomId {
      JoinKeepsChallenge(w, w', e.c, token, None, e.inputs.order, c);
    } else {
      HeardKeeps(w, w', e.c, [Error("invalid_key"), Close("invalid_key")], c);
    }
  }

  lemma AnswerKeeps(cfg: Config, w: World, e: Event, c: Conn)
    requires Reachable(cfg, w) && Answers(cfg, w, e)
    ensures KeepsChallenge(w, Step(cfg, w, e), c)
  {
    var w', p := Step(cfg, w, e), w.ram.peers[e.c];
    AnswerAccepted(cfg, w, e);
    hide Reachable, Step, Enabled, Joins, LastChallenge, OnlyHears, LogOf;
    if p.expectedPlaintext == "" {
      HeardKeeps(w, w', e.c, [Error("no_challenge"), Close("no_challenge")], c);
    } else if e.message.value.plaintext != p.expectedPlaintext {
      HeardKeeps(w, w', e.c, [Error("invalid_key"), Close("invalid_key")], c);
    } else if p.pendingToken in w.db.tokens || p.roomId !in w.db.rooms {
      HeardKeeps(w, w', e.c, [Error("internal"), Close("internal")], c);
    } else {
      JoinKeepsChallenge(w, w', e.c, p.pendingToken, Some(p.pendingToken), e.inputs.order, c);
    }
  }

  lemma SpeechKeeps(cfg: Config, w: World, e: Event, c: Conn)
    requires Reachable(cfg, w) && Speaks(cfg, w, e)
    ensures KeepsChallenge(w, Step(cfg, w, e), c)
  {
    var w', p, m := Step(cfg, w, e), w.ram.peers[e.c], e.message.value;
    SpeechRelayed(cfg, w, e);
    hide Reachable, Step, Enabled, LastChallenge, Members, OnlyHears, AllHear, LogOf;
    if m.payload == "" {
      HeardKeeps(w, w', e.c, [Error("bad_payload")], c);
    } else if |m.payload| > cfg.wsMaxPayloadBytes {
      HeardKeeps(w, w', e.c, [Error("payload_too_large")], c);
    } else if m.kind == "msg" {
      AudienceKeeps(w, w', Members(w, p.roomId), Msg(p.peerId, m.payload, e.inputs.sentAt), c);
    } else {
      AudienceKeeps(w, w', Members(w, p.roomId) - {e.c}, Presence(p.peerId, m.payload, e.inputs.sentAt), c);
    }
  }

  lemma MessageKeepsChallenge(cfg: Config, w: World, e: Event, c: Conn)
    requires Reachable(cfg, w) && Enabled(w, e) && e.Receive? && !FirstHello(cfg, w, e)
    ensures KeepsChallenge(w, Step(cfg, w, e), c)
  {
    hide Reachable, Step, Enabled, LastChallenge, OnlyHears, LogOf, KeepsChallenge;
    if Returns(cfg, w, e) {
      ReturnKeeps(cfg, w, e, c);
    } else if Answers(cfg, w, e) {
      AnswerKeeps(cfg, w, e, c);
    } else if Speaks(cfg, w, e) {
      SpeechKeeps(cfg, w, e, c);
    } else {
      AwayKeeps(cfg, w, e, c);
    }
  }

  lemma AwayKeeps(cfg: Config, w: World, e: Event, c: Conn)
    requires Enabled(w, e) && e.Receive?
    requires Read(cfg, w, e) ==>
               var kind := e.message.value.kind;
               if w.ram.peers[e.c].joined then kind != "msg" && kind != "presence"
               else kind != "hello" && kind != "challenge_response"
    ensures KeepsChallenge(w, Step(cfg, w, e), c)
  {
    TurnedAway(cfg, w, e);
    hide Step, Enabled, LastChallenge, OnlyHears, LogOf;
    var frames := if e.size > cfg.wsMaxPayloadBytes then [Close("payload too large")]
                  else if e.c !in w.ram.peers then [Close("no peer")]
                  else if e.message.None? then [Error("bad_frame")]
                  else if !w.ram.peers[e.c].joined then [Error("not_joined"), Close("not_joined")]
                  else if e.message.value.kind == "ping" then [Pong]
                  else [Error("unknown_type")];
    HeardKeeps(w, Step(cfg, w, e), e.c, frames, c);
  }

  /** A returning peer keeps the challenge that it may have open. */
  lemma ReturnKeepsPending(cfg: Config, w: World, e: Event)
    requires Returns(cfg, w, e)
    ensures var w' := Step(cfg, w, e);
            && e.c in w'.ram.peers
            && w'.ram.peers[e.c].pendingToken == w.ram.peers[e.c].pendingToken
            && w'.ram.peers[e.c].expectedPlaintext == w.ram.peers[e.c].expectedPlaintext
  {
    EnabledOrder(w, e);
    RefuseHears(w, e.c, "invalid_key");
    hide Refuse, PeerIdFromToken, Broadcast, Send, PeerIds, Recent, OnlyHears;
  }

  /** A first hello opens a challenge that matches, and leaves the others. */
  lemma HelloMatches(cfg: Config, past: seq<Event>, w: World, e: Event, c: Conn)
    requires Reachable(cfg, w) && FirstHello(cfg, w, e) && ChallengesInv(past, w)
    ensures Matching(past + [e], Step(cfg, w, e), c)
  {
    var w', room, rows := Step(cfg, w, e), w.ram.peers[e.c].roomId, w.db.challenges;
    ChallengeSent(cfg, w, e);
    hide Reachable, Step, Enabled, LastChallenge, Admits, IsNext, RowPut;
    assert Matching(past, w, c);
    if c != e.c {
      hide Matching;
      MatchingStays(past, e, w, w', c);
    } else if Admits(w, room) {
      var i: nat :| IsNext(w, room, i) && IsGiven(w, w', e.c, e.inputs.newToken, rows[i].pair);
      RowOffers(past, e, w, room, i);
      GivenMatches(past, w, w', e, rows[i].pair);
    } else {
      assert e in past + [e];
      GivenMatches(past, w, w', e, e.inputs.decoy);
    }
  }

  lemma RowOffers(past: seq<Event>, e: Event, w: World, room: Room, i: nat)
    requires IsNext(w, room, i) && ChallengesInv(past, w) && e.Receive?
    ensures i < |w.db.challenges| && Offered(past + [e], e.c, room, w.db.challenges[i].pair)
  {
    hide Matching;
    var row := w.db.challenges[i];
    assert RowPut(past, row);
    var x :| x in past && x.Activate? && x.room == row.roomId && row.pair in x.pairs;
    assert x in past + [e];
  }

  lemma GivenMatches(past: seq<Event>, w: World, w': World, e: Event, pair: ChallengePair)
    requires e.Receive? && IsGiven(w, w', e.c, e.inputs.newToken, pair)
    requires Offered(past + [e], e.c, w.ram.peers[e.c].roomId, pair)
    ensures Matching(past + [e], w', e.c)
  {
    var log := LogOf(w.sent, e.c);
    var f := Challenge(pair.ciphertext, pair.nonce);
    assert (log + [f])[|log + [f]| - 1] == f;
    assert LastChallenge(log + [f]) == Some((pair.ciphertext, pair.nonce));
    hide LastChallenge, Offered;
  }

  /** The rows after an event. */
  lemma RowsPut(cfg: Config, past: seq<Event>, w: World, e: Event, row: ChallengeRow)
    requires Reachable(cfg, w) && Enabled(w, e) && ChallengesInv(past, w) && row in Step(cfg, w, e).db.challenges
    ensures RowPut(past + [e], row)
  {
    hide Reachable, RowPut, Matching, Joins, Members, OnlyHears, AllHear;
    RowComes(cfg, w, e, row);
    if e.Activate? && e.room == row.roomId && row.pair in e.pairs {
      RowComesIn(past, e, row);
    } else {
      var before :| before in w.db.challenges && (row == before || row == before.(used := true));
      RowStays(past, e, before);
    }
  }

  lemma RowComesIn(past: seq<Event>, e: Event, row: ChallengeRow)
    requires e.Activate? && e.room == row.roomId && row.pair in e.pairs
    ensures RowPut(past + [e], row)
  {
    assert e in past + [e];
  }

  /** A row was there before, perhaps unused, or is put in by this event. */
  lemma RowComes(cfg: Config, w: World, e: Event, row: ChallengeRow)
    requires Reachable(cfg, w) && Enabled(w, e) && row in Step(cfg, w, e).db.challenges
    ensures || (exists before :: before in w.db.challenges && (row == before || row == before.(used := true)))
            || (e.Activate? && e.room == row.roomId && row.pair in e.pairs)
  {
    var w', rows := Step(cfg, w, e), w.db.challenges;
    hide Reachable, Step, Enabled, NobodyHears, AllHear, IsGiven, ClosesRoom, Admits;
    match e
    case Accept(d, room, peerId) => Comes(cfg, w, d, room, peerId);
    case Closed(d) => Goes(cfg, w, d);
    case Create(_, _) => RoomCreated(cfg, w, e);
    case Activate(_, _) => RoomActivated(cfg, w, e);
      var k :| 0 <= k < |w'.db.challenges| && w'.db.challenges[k] == row;
      if k < |rows| {
        assert rows[k] == row;
      } else {
        assert w'.db.challenges[|rows| + (k - |rows|)] == row;
      }
    case Delete(_, _) => RoomCloses(cfg, w, e);
    case Purge(_) => RoomCloses(cfg, w, e);
    case Receive(_, _, _, _) =>
      if FirstHello(cfg, w, e) {
        ChallengeSent(cfg, w, e);
      } else {
        MessageRows(cfg, w, e);
      }
  }

  lemma MessageRows(cfg: Config, w: World, e: Event)
    requires Reachable(cfg, w) && Enabled(w, e) && e.Receive? && !FirstHello(cfg, w, e)
    ensures Step(cfg, w, e).db.challenges == w.db.challenges
  {
    hide Reachable, Step, Enabled, Joins, OnlyHears, AllHear, Members;
    if Returns(cfg, w, e) {
      TokenAccepted(cfg, w, e);
    } else if Answers(cfg, w, e) {
      AnswerAccepted(cfg, w, e);
    } else if Speaks(cfg, w, e) {
      SpeechRelayed(cfg, w, e);
    } else {
      TurnedAway(cfg, w, e);
    }
  }

  lemma ChallengesStep(cfg: Config, past: seq<Event>, w: World, e: Event)
    requires Reachable(cfg, w) && Enabled(w, e) && ChallengesInv(past, w)
    ensures ChallengesInv(past + [e], Step(cfg, w, e))
  {
    var w' := Step(cfg, w, e);
    forall row | row in w'.db.challenges ensures RowPut(past + [e], row) {
      RowsPut(cfg, past, w, e, row);
    }
    hide Reachable, Step, Enabled, Matching, RowPut, KeepsChallenge, FirstHello;
    forall c ensures Matching(past + [e], w', c) {
      if FirstHello(cfg, w, e) {
        HelloMatches(cfg, past, w, e, c);
      } else {
        assert Matching(past, w, c);
        OthersKeepChallenges(cfg, w, e, c);
        MatchingStays(past, e, w, w', c);
      }
    }
  }

  lemma {:induction false} ChallengesRun(cfg: Config, past: seq<Event>, w: World, es: seq<Event>, w': World)
    requires Reachable(cfg, w) && ChallengesInv(past, w) && IsRun(cfg, w, es, w')
    ensures ChallengesInv(past + es, w')
    decreases |es|
  {
    hide Reachable, Step, Enabled, ChallengesInv;
    if es == [] {
      assert past + [] == past;
    } else {
      ChallengesStep(cfg, past, w, es[0]);
      ReachableStep(cfg, w, es[0]);
      ChallengesRun(cfg, past + [es[0]], Step(cfg, w, es[0]), es[1..], w');
      assert (past + [es[0]]) + es[1..] == past + es;
    }
  }

  /** Over every run: what is expected from a connection with an open challenge is the plaintext of a pair that was
      put into the pool of its room, or drawn as a decoy for it; and the last challenge that it was sent is that of the
      same pair. */
  lemma ExpectedWasSent(cfg: Config, es: seq<Event>, w: World, c: Conn)
    requires IsRun(cfg, START, es, w) && c in w.ram.peers && w.ram.peers[c].pendingToken != ""
    ensures exists pair ::
              && Offered(es, c, w.ram.peers[c].roomId, pair) && w.ram.peers[c].expectedPlaintext == pair.plaintext
              && LastChallenge(LogOf(w.sent, c)) == Some((pair.ciphertext, pair.nonce))
  {
    ReachableStart(cfg);
    assert ChallengesInv([], START);
    hide IsRun, Offered, LastChallenge, Reachable;
    ChallengesRun(cfg, [], START, es, w);
    assert [] + es == es;
    assert Matching(es, w, c);
  }
}
