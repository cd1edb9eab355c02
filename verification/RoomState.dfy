/** Rooms: the state of the chat server, and what each of its handlers does to it. Every handler call is one atomic
    step. Besides what the server keeps, the state records what each connection was sent and what happened to the
    messages, tokens and challenges of each room. */
module RoomState {
  import opened Basics
  import Sha256Spec
  import Difficulty
  import Captcha

  type Conn = nat
  type Room = string

  // ---------- entities ----------

  /** A live connection. Its peer id is random until it has joined. */
  datatype Peer = Peer(peerId: string, roomId: Room, joined: bool, pendingToken: string, expectedPlaintext: string)

  datatype CachedMessage = CachedMessage(senderPeerId: string, payload: string, createdAt: int)

  datatype RoomRow = RoomRow(maxParticipants: int, activated: bool, requiresPassword: bool)

  datatype ChallengePair = ChallengePair(plaintext: string, ciphertext: string, nonce: string)

  datatype ChallengeRow = ChallengeRow(id: nat, roomId: Room, pair: ChallengePair, used: bool)

  /** What a connection is sent. */
  datatype Frame =
    | Joined(peerId: string, token: Option<string>, history: seq<CachedMessage>, members: seq<string>)
    | PeerJoin(peerId: string)
    | PeerLeave(peerId: string)
    | Msg(peerId: string, payload: string, ts: int)
    | Presence(peerId: string, payload: string, ts: int)
    | Challenge(ciphertext: string, nonce: string)
    | Pong
    | Deleted
    | Error(code: string)
    | Close(reason: string)

  datatype Ram = Ram(
    peers: map<Conn, Peer>,
    byRoom: map<Room, set<Conn>>,
    msgCache: map<Room, seq<CachedMessage>>)

  datatype Db = Db(
    rooms: map<Room, RoomRow>,
    challenges: seq<ChallengeRow>,
    nextId: nat,
    tokens: map<string, Room>)

  // ---------- connections ----------

  type Sent = map<Conn, seq<Frame>>

  function LogOf(sent: Sent, c: Conn): seq<Frame> {
    if c in sent then sent[c] else []
  }

  function Send(sent: Sent, c: Conn, f: Frame): Sent {
    sent[c := LogOf(sent, c) + [f]]
  }

  function SendAll(sent: Sent, targets: set<Conn>, f: Frame): Sent {
    map c | c in sent.Keys + targets :: LogOf(sent, c) + if c in targets then [f] else []
  }

  // ---------- the room manager ----------

  function InRoom(ram: Ram, room: Room): set<Conn> {
    if room in ram.byRoom then ram.byRoom[room] else {}
  }

  predicate IsJoined(ram: Ram, c: Conn) {
    c in ram.peers && ram.peers[c].joined
  }

  function JoinedIn(ram: Ram, room: Room): set<Conn> {
    set c | c in InRoom(ram, room) && IsJoined(ram, c)
  }

  function Broadcast(ram: Ram, sent: Sent, room: Room, f: Frame, except: set<Conn>): Sent {
    SendAll(sent, JoinedIn(ram, room) - except, f)
  }

  function AddPeer(ram: Ram, c: Conn, room: Room, peerId: string): Ram {
    ram.(byRoom := ram.byRoom[room := InRoom(ram, room) + {c}],
         peers := if c in ram.peers then ram.peers else ram.peers[c := Peer(peerId, room, false, "", "")])
  }

  function RemovePeer(ram: Ram, c: Conn): Ram
    requires c in ram.peers
  {
    var room := ram.peers[c].roomId;
    var rest := InRoom(ram, room) - {c};
    ram.(byRoom := if room !in ram.byRoom then ram.byRoom
                   else if rest == {} then ram.byRoom - {room} else ram.byRoom[room := rest],
         peers := ram.peers - {c})
  }

  function MarkJoined(ram: Ram, c: Conn, peerId: string): Ram
    requires c in ram.peers
  {
    ram.(peers := ram.peers[c := ram.peers[c].(peerId := peerId, joined := true)])
  }

  function SetPending(ram: Ram, c: Conn, token: string, plaintext: string): Ram
    requires c in ram.peers
  {
    ram.(peers := ram.peers[c := ram.peers[c].(pendingToken := token, expectedPlaintext := plaintext)])
  }

  function Recent(ram: Ram, room: Room): seq<CachedMessage> {
    if room in ram.msgCache then ram.msgCache[room] else []
  }

  /** The last elements of a sequence, at most `k`. */
  function LastOf<T>(s: seq<T>, k: nat): seq<T> {
    if |s| <= k then s else s[|s| - k..]
  }

  function AppendCached(ram: Ram, room: Room, m: CachedMessage, cacheSize: int): Ram {
    if cacheSize <= 0 then ram
    else ram.(msgCache := ram.msgCache[room := LastOf(Recent(ram, room) + [m], cacheSize)])
  }

  function DropCache(ram: Ram, room: Room): Ram {
    ram.(msgCache := ram.msgCache - {room})
  }

  /** A way of walking a hash set of connections: each of them once, in some order. */
  ghost predicate Enumerates(order: seq<Conn>, conns: set<Conn>) {
    && (forall c :: c in order <==> c in conns)
    && (forall i, j :: 0 <= i < j < |order| ==> order[i] != order[j])
  }

  function PeerIds(ram: Ram, order: seq<Conn>): (ids: seq<string>)
    requires forall c :: c in order ==> c in ram.peers
    ensures |ids| == |order|
  {
    seq(|order|, i requires 0 <= i < |order| => assert order[i] in order; ram.peers[order[i]].peerId)
  }

  // ---------- the database ----------

  function CreateRoom(db: Db, room: Room, row: RoomRow): Option<Db> {
    if room in db.rooms then None else Some(db.(rooms := db.rooms[room := row]))
  }

  /** Deleting a room deletes its challenges and its tokens. */
  function DeleteRoom(db: Db, room: Room): Db {
    Db(db.rooms - {room}, Without(db.challenges, room), db.nextId,
        map t | t in db.tokens && db.tokens[t] != room :: db.tokens[t])
  }

  function Without(rows: seq<ChallengeRow>, room: Room): seq<ChallengeRow> {
    if rows == [] then []
    else Without(rows[..|rows| - 1], room) + if rows[|rows| - 1].roomId == room then [] else [rows[|rows| - 1]]
  }

  function NewRows(room: Room, pairs: seq<ChallengePair>, firstId: nat): (rows: seq<ChallengeRow>)
    ensures |rows| == |pairs|
    ensures forall i :: 0 <= i < |pairs| ==> rows[i] == ChallengeRow(firstId + i, room, pairs[i], false)
  {
    seq(|pairs|, i requires 0 <= i < |pairs| => ChallengeRow(firstId + i, room, pairs[i], false))
  }

  /** The pool of a room goes in whole, or not at all if there is no such room. */
  function InsertChallenges(db: Db, room: Room, pairs: seq<ChallengePair>): Option<Db> {
    if room !in db.rooms && pairs != [] then None
    else Some(db.(challenges := db.challenges + NewRows(room, pairs, db.nextId), nextId := db.nextId + |pairs|))
  }

  function ActivateRoom(db: Db, room: Room): Option<Db> {
    if room !in db.rooms then None else Some(db.(rooms := db.rooms[room := db.rooms[room].(activated := true)]))
  }

  /** The first row of a room that has not been handed out. */
  function FirstUnused(rows: seq<ChallengeRow>, room: Room): (r: Option<nat>)
    ensures r.Some? ==> r.value < |rows| && rows[r.value].roomId == room && !rows[r.value].used
    ensures r.Some? ==> forall i :: 0 <= i < r.value ==> rows[i].roomId != room || rows[i].used
    ensures r.None? ==> forall i :: 0 <= i < |rows| ==> rows[i].roomId != room || rows[i].used
  {
    if rows == [] then None
    else
      match FirstUnused(rows[..|rows| - 1], room)
      case Some(i) => Some(i)
      case None =>
        if rows[|rows| - 1].roomId == room && !rows[|rows| - 1].used then Some(|rows| - 1) else None
  }

  function MarkUsed(db: Db, i: nat): Db
    requires i < |db.challenges|
  {
    db.(challenges := db.challenges[i := db.challenges[i].(used := true)])
  }

  /** A token is recorded once, and only for a room that exists. */
  function InsertToken(db: Db, token: string, room: Room): Option<Db> {
    if token in db.tokens || room !in db.rooms then None else Some(db.(tokens := db.tokens[token := room]))
  }

  // ---------- the handlers ----------

  /** What the state records besides: who was ever connected, which joined connections have departed and as whom, the
      messages of each room and how many of them came before its cache was last erased, where the messages of a
      joined connection start, and the tokens and challenges of each room. A connection has an origin if its last
      challenge was not a decoy. */
  datatype Records = Records(
    connected: set<Conn>,
    departed: map<Conn, string>,
    messages: map<Room, seq<(string, string)>>,
    erasedAt: map<Room, nat>,
    start: map<Conn, nat>,
    tokens: set<(string, Room)>,
    quota: map<Room, int>,
    pool: map<Room, seq<nat>>,
    handedOut: map<Room, seq<nat>>,
    redeemed: map<Room, set<nat>>,
    freshTokens: map<Room, nat>,
    decoysAnswered: map<Room, nat>,
    origin: map<Conn, nat>)

  datatype World = World(ram: Ram, db: Db, sent: Sent, rec: Records)

  datatype Config = Config(
    maxParticipants: int,
    maxParticipantsCap: int,
    totalRoomsCap: int,
    messageCacheSize: int,
    wsMaxPayloadBytes: int,
    challengeMaxBlobBytes: int)

  /** A message from a connection, as far as it is read. A field that is missing or no string is empty. */
  datatype Message = Message(kind: string, token: string, plaintext: string, payload: string)

  /** What the handler of a message draws from outside: random values, the clock, and the order in which it meets
      the connections of a room. */
  datatype Inputs = Inputs(newToken: string, decoy: ChallengePair, cachedAt: int, sentAt: int, order: seq<Conn>)

  datatype Event =
    | Accept(c: Conn, room: Room, peerId: string)
    | Closed(c: Conn)
    | Receive(c: Conn, size: int, message: Option<Message>, inputs: Inputs)
    | Create(room: Room, requiresPassword: bool)
    | Activate(room: Room, pairs: seq<ChallengePair>)
    | Delete(room: Room, token: string)
    | Purge(room: Room)

  function PeerIdFromToken(token: string): string {
    Captcha.HexOf(Sha256Spec.Sha256(Difficulty.BytesOf(token))[..8])
  }

  function Messages(rec: Records, room: Room): seq<(string, string)> {
    if room in rec.messages then rec.messages[room] else []
  }

  function ErasedAt(rec: Records, room: Room): nat {
    if room in rec.erasedAt then rec.erasedAt[room] else 0
  }

  function IdsOf(m: map<Room, seq<nat>>, room: Room): seq<nat> {
    if room in m then m[room] else []
  }

  function Redeemed(rec: Records, room: Room): set<nat> {
    if room in rec.redeemed then rec.redeemed[room] else {}
  }

  function FreshTokens(rec: Records, room: Room): nat {
    if room in rec.freshTokens then rec.freshTokens[room] else 0
  }

  function DecoysAnswered(rec: Records, room: Room): nat {
    if room in rec.decoysAnswered then rec.decoysAnswered[room] else 0
  }

  function SendTo(w: World, c: Conn, f: Frame): World {
    w.(sent := Send(w.sent, c, f))
  }

  /** An error, and the end of the connection. */
  function Refuse(w: World, c: Conn, code: string): World {
    SendTo(SendTo(w, c, Error(code)), c, Close(code))
  }

  function OnAccept(w: World, c: Conn, room: Room, peerId: string): World {
    w.(ram := AddPeer(w.ram, c, room, peerId), rec := w.rec.(connected := w.rec.connected + {c}))
  }

  function OnClose(w: World, c: Conn): World {
    if c !in w.ram.peers then w
    else
      var p, ram := w.ram.peers[c], RemovePeer(w.ram, c);
      if !p.joined then w.(ram := ram)
      else
        w.(ram := ram, sent := Broadcast(ram, w.sent, p.roomId, PeerLeave(p.peerId), {}),
           rec := w.rec.(departed := w.rec.departed[c := p.peerId]))
  }

  /** The peer becomes joined: it is told who it is, the cached messages and the members; the others are told that
      it has come. */
  function FinalizeJoin(w: World, c: Conn, token: string, isFresh: bool, order: seq<Conn>): World
    requires c in w.ram.peers && forall d :: d in order ==> d in w.ram.peers
  {
    var id, room := PeerIdFromToken(token), w.ram.peers[c].roomId;
    var ram, history := MarkJoined(w.ram, c, id), Recent(w.ram, room);
    var joined := Joined(id, if isFresh then Some(token) else None, history, PeerIds(ram, order));
    var start := |Messages(w.rec, room)| - |history|;
    w.(ram := ram, sent := Broadcast(ram, Send(w.sent, c, joined), room, PeerJoin(id), {c}),
       rec := w.rec.(start := w.rec.start[c := if start < 0 then 0 else start]))
  }

  /** The first-time joiner gets the room's next challenge, or a decoy that looks like one. */
  function IssueChallenge(w: World, c: Conn, inputs: Inputs): World
    requires c in w.ram.peers
  {
    var room := w.ram.peers[c].roomId;
    var next :=
      if room !in w.db.rooms || |JoinedIn(w.ram, room)| >= w.db.rooms[room].maxParticipants then None
      else FirstUnused(w.db.challenges, room);
    var pair := if next.None? then inputs.decoy else w.db.challenges[next.value].pair;
    var w' := SendTo(w.(ram := SetPending(w.ram, c, inputs.newToken, pair.plaintext)), c,
        Challenge(pair.ciphertext, pair.nonce));
    if next.None? then w'.(rec := w.rec.(origin := w.rec.origin - {c}))
    else
      var id := w.db.challenges[next.value].id;
      w'.(db := MarkUsed(w.db, next.value),
          rec := w.rec.(origin := w.rec.origin[c := id],
              handedOut := w.rec.handedOut[room := IdsOf(w.rec.handedOut, room) + [id]]))
  }

  function Hello(w: World, c: Conn, token: string, inputs: Inputs): World
    requires c in w.ram.peers && forall d :: d in inputs.order ==> d in w.ram.peers
  {
    if token == "" then IssueChallenge(w, c, inputs)
    else if token in w.db.tokens && w.db.tokens[token] == w.ram.peers[c].roomId
        then FinalizeJoin(w, c, token, false, inputs.order)
    else Refuse(w, c, "invalid_key")
  }

  function Redeem(w: World, c: Conn, token: string, room: Room): Records {
    var redeemed := Redeemed(w.rec, room) + if c in w.rec.origin then {w.rec.origin[c]} else {};
    w.rec.(tokens := w.rec.tokens + {(token, room)},
           redeemed := w.rec.redeemed[room := redeemed],
           freshTokens := w.rec.freshTokens[room := FreshTokens(w.rec, room) + 1],
           decoysAnswered := if c in w.rec.origin then w.rec.decoysAnswered
                             else w.rec.decoysAnswered[room := DecoysAnswered(w.rec, room) + 1])
  }

  function Respond(w: World, c: Conn, answer: string, inputs: Inputs): World
    requires c in w.ram.peers && forall d :: d in inputs.order ==> d in w.ram.peers
  {
    var p := w.ram.peers[c];
    if p.pendingToken == "" || p.expectedPlaintext == "" then Refuse(w, c, "no_challenge")
    else
      var w' := w.(ram := SetPending(w.ram, c, "", ""));
      if answer == "" || answer != p.expectedPlaintext then Refuse(w', c, "invalid_key")
      else
        match InsertToken(w.db, p.pendingToken, p.roomId)
        case None => Refuse(w', c, "internal")
        case Some(db) =>
          FinalizeJoin(w'.(db := db, rec := Redeem(w, c, p.pendingToken, p.roomId)), c, p.pendingToken, true,
              inputs.order)
  }

  function Relay(cfg: Config, w: World, c: Conn, kind: string, payload: string, inputs: Inputs): World
    requires c in w.ram.peers
  {
    var p := w.ram.peers[c];
    if payload == "" then SendTo(w, c, Error("bad_payload"))
    else if |payload| > cfg.wsMaxPayloadBytes then SendTo(w, c, Error("payload_too_large"))
    else if kind == "msg" then
      var m := CachedMessage(p.peerId, payload, inputs.cachedAt);
      w.(ram := AppendCached(w.ram, p.roomId, m, cfg.messageCacheSize),
         sent := Broadcast(w.ram, w.sent, p.roomId, Msg(p.peerId, payload, inputs.sentAt), {}),
         rec := w.rec.(messages := w.rec.messages[p.roomId := Messages(w.rec, p.roomId) + [(p.peerId, payload)]]))
    else w.(sent := Broadcast(w.ram, w.sent, p.roomId, Presence(p.peerId, payload, inputs.sentAt), {c}))
  }

  function OnMessage(cfg: Config, w: World, c: Conn, size: int, message: Option<Message>, inputs: Inputs): World
    requires forall d :: d in inputs.order ==> d in w.ram.peers
  {
    if size > cfg.wsMaxPayloadBytes then SendTo(w, c, Close("payload too large"))
    else if c !in w.ram.peers then SendTo(w, c, Close("no peer"))
    else
      match message
      case None => SendTo(w, c, Error("bad_frame"))
      case Some(m) =>
        if !w.ram.peers[c].joined then
          if m.kind == "hello" then Hello(w, c, m.token, inputs)
          else if m.kind == "challenge_response" then Respond(w, c, m.plaintext, inputs)
          else Refuse(w, c, "not_joined")
        else if m.kind == "msg" || m.kind == "presence" then Relay(cfg, w, c, m.kind, m.payload, inputs)
        else if m.kind == "ping" then SendTo(w, c, Pong)
        else SendTo(w, c, Error("unknown_type"))
  }

  /** How many challenges a room asks for. */
  function Required(row: RoomRow): int {
    row.maxParticipants * if row.requiresPassword then 10 else 5
  }

  /** Room creation, once the proof of work has been accepted. */
  function OnCreate(cfg: Config, w: World, room: Room, requiresPassword: bool): World {
    var capacity := if cfg.maxParticipants < cfg.maxParticipantsCap then cfg.maxParticipants
        else cfg.maxParticipantsCap;
    var row := RoomRow(capacity, false, requiresPassword);
    if cfg.totalRoomsCap > 0 && |w.db.rooms| >= cfg.totalRoomsCap then w
    else
      match CreateRoom(w.db, room, row)
      case None => w
      case Some(db) => w.(db := db, rec := w.rec.(quota := w.rec.quota[room := Required(row)]))
  }

  predicate GoodPair(cfg: Config, p: ChallengePair) {
    var cap := cfg.challengeMaxBlobBytes * 2;
    && p.plaintext != "" && p.ciphertext != "" && p.nonce != ""
    && |p.plaintext| <= cap && |p.ciphertext| <= cap && |p.nonce| <= cap
  }

  function OnActivate(cfg: Config, w: World, room: Room, pairs: seq<ChallengePair>): World {
    if room !in w.db.rooms || w.db.rooms[room].activated || |pairs| != Required(w.db.rooms[room])
       || exists i :: 0 <= i < |pairs| && !GoodPair(cfg, pairs[i]) then w
    else
      match InsertChallenges(w.db, room, pairs)
      case None => w
      case Some(db) =>
        match ActivateRoom(db, room)
        case None => w.(db := db)
        case Some(db') =>
          w.(db := db', rec := w.rec.(pool :=
              w.rec.pool[room := IdsOf(w.rec.pool, room) + seq(|pairs|, i => w.db.nextId + i)]))
  }

  /** Everybody in the room is told that it is gone, its cached messages and its rows are dropped. The connections
      stay until they are closed. */
  function CloseAndDelete(w: World, room: Room): World {
    w.(ram := DropCache(w.ram, room), db := DeleteRoom(w.db, room),
       sent := SendAll(SendAll(w.sent, InRoom(w.ram, room), Deleted), InRoom(w.ram, room), Close("room deleted")),
       rec := w.rec.(erasedAt := w.rec.erasedAt[room := |Messages(w.rec, room)|]))
  }

  function OnDelete(w: World, room: Room, token: string): World {
    if token != "" && token in w.db.tokens && w.db.tokens[token] == room then CloseAndDelete(w, room) else w
  }

  /** What the surroundings supply: a connection opens once, random tokens and decoys are not empty, room ids are
      fresh, and the order in which connections are met is one of those of the room they are in. */
  ghost predicate Enabled(w: World, e: Event) {
    match e
    case Accept(c, room, _) => c !in w.rec.connected && room != ""
    case Receive(c, _, _, inputs) =>
      && inputs.newToken != "" && inputs.decoy.plaintext != ""
      && (if c in w.ram.peers then Enumerates(inputs.order, JoinedIn(w.ram, w.ram.peers[c].roomId) + {c})
          else inputs.order == [])
    case Create(room, _) => room !in w.rec.quota
    case _ => true
  }

  lemma EnabledOrder(w: World, e: Event)
    requires Enabled(w, e) && e.Receive?
    ensures forall d :: d in e.inputs.order ==> d in w.ram.peers
  {
  }

  ghost function Step(cfg: Config, w: World, e: Event): World
    requires Enabled(w, e)
  {
    match e
    case Accept(c, room, peerId) => OnAccept(w, c, room, peerId)
    case Closed(c) => OnClose(w, c)
    case Receive(c, size, message, inputs) => EnabledOrder(w, e); OnMessage(cfg, w, c, size, message, inputs)
    case Create(room, requiresPassword) => OnCreate(cfg, w, room, requiresPassword)
    case Activate(room, pairs) => OnActivate(cfg, w, room, pairs)
    case Delete(room, token) => OnDelete(w, room, token)
    case Purge(room) => CloseAndDelete(w, room)
  }

  const START := World(Ram(map[], map[], map[]), Db(map[], [], 1, map[]), map[],
                       Records({}, map[], map[], map[], map[], {}, map[], map[], map[], map[], map[], map[], map[]))

  /** A run: events that the surroundings can supply one after the other. */
  ghost predicate IsRun(cfg: Config, w: World, es: seq<Event>, w': World)
    decreases |es|
  {
    if es == [] then w' == w
    else Enabled(w, es[0]) && IsRun(cfg, Step(cfg, w, es[0]), es[1..], w')
  }
}
