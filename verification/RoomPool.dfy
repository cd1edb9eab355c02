/** The challenge pool of a room: handed out in order, each challenge once, and never more tokens than challenges. */
module RoomPool {
  import opened Basics
  import opened RoomState

  /** The ids of a room's rows that have not been handed out, in the order of the table. */
  function Unused(rows: seq<ChallengeRow>, room: Room): seq<nat> {
    if rows == [] then []
    else
      var last := rows[|rows| - 1];
      Unused(rows[..|rows| - 1], room) + if last.roomId == room && !last.used then [last.id] else []
  }

  predicate Increasing(ids: seq<nat>) {
    forall i, j :: 0 <= i < j < |ids| ==> ids[i] < ids[j]
  }

  predicate Below(ids: seq<nat>, bound: nat) {
    forall i :: 0 <= i < |ids| ==> ids[i] < bound
  }

  function ToSet(ids: seq<nat>): set<nat> {
    set i | i in ids
  }

  /** What holds of the pool of one room: the challenges that were handed out are the first of those that were put
      in at activation, the rows still unused are the others, there are as many as the room asks for, and what was
      redeemed was handed out. */
  predicate PoolFacts(pool: seq<nat>, handed: seq<nat>, unused: seq<nat>, redeemed: set<nat>, quota: Option<int>,
      row: Option<RoomRow>)
  {
    && |handed| <= |pool| && handed == pool[..|handed|] && Increasing(pool)
    && (quota.None? ==> pool == [] && row.None?)
    && (quota.Some? && pool != [] ==> |pool| == quota.value)
    && (row.Some? ==> quota == Some(Required(row.value)) && unused == pool[|handed|..])
    && (row.Some? && !row.value.activated ==> pool == [])
    && (row.None? ==> unused == [])
    && redeemed <= ToSet(handed)
  }

  function QuotaOf(rec: Records, r: Room): Option<int> {
    if r in rec.quota then Some(rec.quota[r]) else None
  }

  function RowOf(db: Db, r: Room): Option<RoomRow> {
    if r in db.rooms then Some(db.rooms[r]) else None
  }

  predicate PoolOk(db: Db, rec: Records, r: Room) {
    && PoolFacts(IdsOf(rec.pool, r), IdsOf(rec.handedOut, r), Unused(db.challenges, r), Redeemed(rec, r),
        QuotaOf(rec, r), RowOf(db, r))
    && Below(IdsOf(rec.pool, r), db.nextId)
  }

  /** A connection's open challenge was handed out to its room, and has not been redeemed. */
  ghost predicate OpenOk(ram: Ram, rec: Records, c: Conn) {
    c in ram.peers && ram.peers[c].pendingToken != "" && c in rec.origin ==>
      rec.origin[c] in IdsOf(rec.handedOut, ram.peers[c].roomId) && rec.origin[c] !in Redeemed(rec, ram.peers[c].roomId)
  }

  /** No two connections of a room have the same challenge open. */
  ghost predicate OpenDistinct(ram: Ram, rec: Records) {
    forall c, d :: c != d && Open(ram, rec, c) && Open(ram, rec, d) && ram.peers[c].roomId == ram.peers[d].roomId
                   ==> rec.origin[c] != rec.origin[d]
  }

  ghost predicate Open(ram: Ram, rec: Records, c: Conn) {
    c in ram.peers && ram.peers[c].pendingToken != "" && c in rec.origin
  }

  ghost predicate PoolInv(w: World) {
    && (forall r :: PoolOk(w.db, w.rec, r))
    && (forall c :: OpenOk(w.ram, w.rec, c))
    && OpenDistinct(w.ram, w.rec)
  }

  // ---------- rows ----------

  lemma UnusedStep(rows: seq<ChallengeRow>, row: ChallengeRow, room: Room)
    ensures Unused(rows + [row], room) == Unused(rows, room) + if row.roomId == room && !row.used then [row.id] else []
  {
    assert (rows + [row])[..|rows|] == rows;
  }

  /** Handing out the first unused row takes the first id from those of its room. */
  lemma {:induction false} UnusedAfterFirst(rows: seq<ChallengeRow>, room: Room, i: nat, r: Room)
    requires FirstUnused(rows, room) == Some(i)
    ensures r == room ==> Unused(rows, r) != [] && Unused(rows, r)[0] == rows[i].id
    ensures Unused(rows[i := rows[i].(used := true)], r) == if r == room then Unused(rows, r)[1..] else Unused(rows, r)
    decreases |rows|
  {
    var front, last := rows[..|rows| - 1], rows[|rows| - 1];
    var rows' := rows[i := rows[i].(used := true)];
    assert rows == front + [last];
    UnusedStep(front, last, r);
    if i < |front| {
      assert FirstUnused(front, room) == Some(i);
      UnusedAfterFirst(front, room, i, r);
      assert rows' == front[i := front[i].(used := true)] + [last];
      UnusedStep(front[i := front[i].(used := true)], last, r);
    } else {
      assert rows' == front + [last.(used := true)];
      UnusedStep(front, last.(used := true), r);
      AllUsed(front, room);
    }
  }

  lemma {:induction false} AllUsed(rows: seq<ChallengeRow>, room: Room)
    requires forall i :: 0 <= i < |rows| ==> rows[i].roomId != room || rows[i].used
    ensures Unused(rows, room) == []
  {
    if rows != [] {
      AllUsed(rows[..|rows| - 1], room);
    }
  }

  lemma NothingUnused(r: Room)
    ensures Unused([], r) == []
  {
  }

  lemma {:induction false} UnusedAppend(a: seq<ChallengeRow>, b: seq<ChallengeRow>, r: Room)
    ensures Unused(a + b, r) == Unused(a, r) + Unused(b, r)
    decreases |b|
  {
    hide Unused;
    if b == [] {
      NothingUnused(r);
      assert a + b == a;
    } else {
      var front, last := b[..|b| - 1], b[|b| - 1];
      assert b == front + [last];
      UnusedAppend(a, front, r);
      Appends(a, front, last);
      UnusedStep(front, last, r);
      UnusedStep(a + front, last, r);
      Regroup(Unused(a, r), Unused(front, r), if last.roomId == r && !last.used then [last.id] else []);
    }
  }

  lemma Appends(a: seq<ChallengeRow>, front: seq<ChallengeRow>, last: ChallengeRow)
    ensures a + (front + [last]) == (a + front) + [last]
  {
  }

  lemma {:induction false} UnusedNew(room: Room, pairs: seq<ChallengePair>, firstId: nat, r: Room)
    ensures Unused(NewRows(room, pairs, firstId), r) == if r == room then seq(|pairs|, i => firstId + i) else []
    decreases |pairs|
  {
    hide Unused, NewRows;
    if pairs == [] {
      NothingUnused(r);
      assert NewRows(room, pairs, firstId) == [];
    } else {
      var front, last := pairs[..|pairs| - 1], pairs[|pairs| - 1];
      UnusedNew(room, front, firstId, r);
      RowsGrow(room, pairs, firstId);
      UnusedStep(NewRows(room, front, firstId), ChallengeRow(firstId + |front|, room, last, false), r);
      IdsGrow(firstId, |front|);
    }
  }

  lemma RowsGrow(room: Room, pairs: seq<ChallengePair>, firstId: nat)
    requires pairs != []
    ensures var front, last := pairs[..|pairs| - 1], pairs[|pairs| - 1];
            NewRows(room, pairs, firstId)
            == NewRows(room, front, firstId) + [ChallengeRow(firstId + |front|, room, last, false)]
  {
  }

  lemma IdsGrow(firstId: nat, n: nat)
    ensures seq(n + 1, i => firstId + i) == seq(n, i => firstId + i) + [firstId + n]
  {
  }

  lemma WithoutStep(rows: seq<ChallengeRow>, room: Room)
    requires rows != []
    ensures var front, last := rows[..|rows| - 1], rows[|rows| - 1];
            Without(rows, room) == if last.roomId == room then Without(front, room) else Without(front, room) + [last]
  {
  }

  lemma {:induction false} UnusedWithout(rows: seq<ChallengeRow>, room: Room, r: Room)
    ensures Unused(Without(rows, room), r) == if r == room then [] else Unused(rows, r)
    decreases |rows|
  {
    if rows != [] {
      var front, last := rows[..|rows| - 1], rows[|rows| - 1];
      assert rows == front + [last];
      hide Unused, Without;
      WithoutStep(rows, room);
      UnusedWithout(front, room, r);
      UnusedStep(front, last, r);
      UnusedStep(Without(front, room), last, r);
    }
  }

  // ---------- steps ----------

  /** Steps that leave the tables, the pools and the open challenges as they are, or close some. */
  lemma PoolSame(w: World, w': World)
    requires PoolInv(w) && w'.db.rooms == w.db.rooms && w'.db.challenges == w.db.challenges
             && w'.db.nextId == w.db.nextId
    requires w'.rec.pool == w.rec.pool && w'.rec.handedOut == w.rec.handedOut && w'.rec.quota == w.rec.quota
    requires w'.rec.redeemed == w.rec.redeemed && w'.rec.origin == w.rec.origin
    requires forall c :: Open(w'.ram, w'.rec, c) ==>
             Open(w.ram, w.rec, c) && w'.ram.peers[c].roomId == w.ram.peers[c].roomId
    ensures PoolInv(w')
  {
    forall r ensures PoolOk(w'.db, w'.rec, r) {
      assert PoolOk(w.db, w.rec, r);
    }
    forall c ensures OpenOk(w'.ram, w'.rec, c) {
      assert OpenOk(w.ram, w.rec, c);
    }
  }

  lemma FactsHandOut(pool: seq<nat>, handed: seq<nat>, unused: seq<nat>, redeemed: set<nat>, quota: Option<int>,
      row: Option<RoomRow>)
    requires PoolFacts(pool, handed, unused, redeemed, quota, row) && row.Some? && unused != []
    ensures PoolFacts(pool, handed + [unused[0]], unused[1..], redeemed, quota, row)
    ensures unused[0] !in handed && unused[0] !in redeemed
  {
    assert pool[|handed|] == unused[0];
    assert forall i :: 0 <= i < |handed| ==> handed[i] == pool[i];
  }

  /** The first unused challenge of a connection's room is handed out to it. */
  ghost predicate HandsOut(w: World, w': World, c: Conn, room: Room, i: nat) {
    && c in w.ram.peers && w.ram.peers[c].roomId == room && room in w.db.rooms
    && FirstUnused(w.db.challenges, room) == Some(i)
    && w'.db == MarkUsed(w.db, i)
    && w'.rec.pool == w.rec.pool && w'.rec.quota == w.rec.quota && w'.rec.redeemed == w.rec.redeemed
    && w'.rec.origin == w.rec.origin[c := w.db.challenges[i].id]
    && w'.rec.handedOut == w.rec.handedOut[room := IdsOf(w.rec.handedOut, room) + [w.db.challenges[i].id]]
    && w'.ram.peers.Keys == w.ram.peers.Keys && w'.ram.peers[c].roomId == room
    && forall d :: d in w.ram.peers && d != c ==> w'.ram.peers[d] == w.ram.peers[d]
  }

  lemma NewChallenge(w: World, w': World, c: Conn, room: Room, i: nat)
    requires PoolOk(w.db, w.rec, room) && HandsOut(w, w', c, room, i)
    ensures PoolOk(w'.db, w'.rec, room)
    ensures w.db.challenges[i].id !in IdsOf(w.rec.handedOut, room) && w.db.challenges[i].id !in Redeemed(w.rec, room)
  {
    UnusedAfterFirst(w.db.challenges, room, i, room);
    FactsHandOut(IdsOf(w.rec.pool, room), IdsOf(w.rec.handedOut, room), Unused(w.db.challenges, room),
        Redeemed(w.rec, room),
                 QuotaOf(w.rec, room), RowOf(w.db, room));
    hide Unused, FirstUnused, PoolFacts;
  }

  lemma OtherRooms(w: World, w': World, c: Conn, room: Room, i: nat, r: Room)
    requires PoolOk(w.db, w.rec, r) && HandsOut(w, w', c, room, i) && r != room
    ensures PoolOk(w'.db, w'.rec, r)
  {
    UnusedAfterFirst(w.db.challenges, room, i, r);
    hide Unused, FirstUnused, PoolFacts;
  }

  lemma OpenAfterHandOut(w: World, w': World, c: Conn, room: Room, i: nat)
    requires HandsOut(w, w', c, room, i) && (forall d :: OpenOk(w.ram, w.rec, d)) && OpenDistinct(w.ram, w.rec)
    requires w.db.challenges[i].id !in IdsOf(w.rec.handedOut, room) && w.db.challenges[i].id !in Redeemed(w.rec, room)
    ensures (forall d :: OpenOk(w'.ram, w'.rec, d)) && OpenDistinct(w'.ram, w'.rec)
  {
    hide FirstUnused;
    forall d ensures OpenOk(w'.ram, w'.rec, d) {
      assert OpenOk(w.ram, w.rec, d);
    }
    forall d, e | d != e && Open(w'.ram, w'.rec, d) && Open(w'.ram, w'.rec, e)
        && w'.ram.peers[d].roomId == w'.ram.peers[e].roomId
      ensures w'.rec.origin[d] != w'.rec.origin[e] {
      assert OpenOk(w.ram, w.rec, d) && OpenOk(w.ram, w.rec, e);
    }
  }

  /** Handing a challenge out. */
  lemma PoolHandOut(w: World, w': World, c: Conn, room: Room, i: nat)
    requires PoolInv(w) && HandsOut(w, w', c, room, i)
    ensures PoolInv(w')
  {
    hide HandsOut, PoolOk, OpenOk, OpenDistinct;
    assert PoolOk(w.db, w.rec, room);
    NewChallenge(w, w', c, room, i);
    forall r ensures PoolOk(w'.db, w'.rec, r) {
      if r != room {
        OtherRooms(w, w', c, room, i, r);
      }
    }
    OpenAfterHandOut(w, w', c, room, i);
  }

  /** A decoy leaves the pool alone, and closes whatever challenge the connection had open. */
  lemma PoolDecoy(w: World, w': World, c: Conn)
    requires PoolInv(w) && w'.db == w.db && c in w.ram.peers
    requires w'.rec == w.rec.(origin := w.rec.origin - {c})
    requires forall d :: d in w'.ram.peers && d != c ==> d in w.ram.peers && w'.ram.peers[d] == w.ram.peers[d]
    ensures PoolInv(w')
  {
    forall r ensures PoolOk(w'.db, w'.rec, r) {
      assert PoolOk(w.db, w.rec, r);
    }
    forall d ensures OpenOk(w'.ram, w'.rec, d) {
      assert OpenOk(w.ram, w.rec, d);
    }
  }

  lemma FactsRedeem(pool: seq<nat>, handed: seq<nat>, unused: seq<nat>, redeemed: set<nat>, quota: Option<int>,
      row: Option<RoomRow>, id: nat)
    requires PoolFacts(pool, handed, unused, redeemed, quota, row) && id in handed
    ensures PoolFacts(pool, handed, unused, redeemed + {id}, quota, row)
  {
  }

  /** A connection's challenge is redeemed and closed. */
  ghost predicate Redeems(w: World, w': World, c: Conn, room: Room) {
    && c in w.ram.peers && w.ram.peers[c].pendingToken != "" && w.ram.peers[c].roomId == room
    && w'.db.rooms == w.db.rooms && w'.db.challenges == w.db.challenges && w'.db.nextId == w.db.nextId
    && w'.rec.pool == w.rec.pool && w'.rec.quota == w.rec.quota && w'.rec.origin == w.rec.origin
    && w'.rec.handedOut == w.rec.handedOut
    && w'.rec.redeemed == w.rec.redeemed[room := Redeemed(w.rec, room)
        + if c in w.rec.origin then {w.rec.origin[c]} else {}]
    && forall d :: Open(w'.ram, w'.rec, d) ==>
        d != c && Open(w.ram, w.rec, d) && w'.ram.peers[d].roomId == w.ram.peers[d].roomId
  }

  lemma PoolRedeem(w: World, w': World, c: Conn, room: Room)
    requires PoolInv(w) && Redeems(w, w', c, room)
    ensures PoolInv(w')
  {
    assert OpenOk(w.ram, w.rec, c);
    forall r ensures PoolOk(w'.db, w'.rec, r) {
      assert PoolOk(w.db, w.rec, r);
      if r == room && c in w.rec.origin {
        FactsRedeem(IdsOf(w.rec.pool, r), IdsOf(w.rec.handedOut, r), Unused(w.db.challenges, r), Redeemed(w.rec, r),
                    QuotaOf(w.rec, r), RowOf(w.db, r), w.rec.origin[c]);
      }
      hide PoolFacts, Unused;
    }
    forall d ensures OpenOk(w'.ram, w'.rec, d) {
      assert OpenOk(w.ram, w.rec, d);
    }
  }

  lemma PoolCreate(w: World, w': World, room: Room, row: RoomRow)
    requires PoolInv(w) && room !in w.rec.quota && !row.activated && room !in w.db.rooms
    requires w'.ram == w.ram && w'.db == w.db.(rooms := w.db.rooms[room := row])
    requires w'.rec == w.rec.(quota := w.rec.quota[room := Required(row)])
    ensures PoolInv(w')
  {
    forall r ensures PoolOk(w'.db, w'.rec, r) {
      assert PoolOk(w.db, w.rec, r);
      hide Unused, Required;
    }
    forall d ensures OpenOk(w'.ram, w'.rec, d) {
      assert OpenOk(w.ram, w.rec, d);
    }
  }

  lemma FactsActivate(unused: seq<nat>, row: RoomRow, quota: Option<int>, firstId: nat, n: nat)
    requires PoolFacts([], [], unused, {}, quota, Some(row)) && n == Required(row)
    ensures PoolFacts(seq(n, i => firstId + i), [], unused + seq(n, i => firstId + i), {}, quota,
            Some(row.(activated := true)))
  {
    hide Increasing;
    var ids := seq(n, i => firstId + i);
    assert Increasing(ids) by { UpFrom(firstId, n); }
    assert ids[..0] == [] && ids[0..] == ids && unused == [];
    assert unused + ids == ids;
  }

  lemma UpFrom(firstId: nat, n: nat)
    ensures Increasing(seq(n, i => firstId + i))
  {
  }

  ghost predicate Activates(w: World, w': World, room: Room, pairs: seq<ChallengePair>) {
    && room in w.db.rooms && !w.db.rooms[room].activated && |pairs| == Required(w.db.rooms[room])
    && w'.ram == w.ram
    && w'.db.rooms == w.db.rooms[room := w.db.rooms[room].(activated := true)]
    && w'.db.challenges == w.db.challenges + NewRows(room, pairs, w.db.nextId) && w'.db.nextId == w.db.nextId + |pairs|
    && w'.rec == w.rec.(pool := w.rec.pool[room := IdsOf(w.rec.pool, room) + seq(|pairs|, i => w.db.nextId + i)])
  }

  lemma ActivatedRoom(w: World, w': World, room: Room, pairs: seq<ChallengePair>)
    requires PoolOk(w.db, w.rec, room) && Activates(w, w', room, pairs)
    ensures PoolOk(w'.db, w'.rec, room)
  {
    var ids := seq(|pairs|, i => w.db.nextId + i);
    assert IdsOf(w.rec.pool, room) == [] && IdsOf(w.rec.handedOut, room) == [];
    assert Redeemed(w.rec, room) == {} by { assert ToSet([]) == {}; }
    FactsActivate(Unused(w.db.challenges, room), w.db.rooms[room], QuotaOf(w.rec, room), w.db.nextId, |pairs|);
    UnusedAppend(w.db.challenges, NewRows(room, pairs, w.db.nextId), room);
    UnusedNew(room, pairs, w.db.nextId, room);
    assert IdsOf(w.rec.pool, room) + ids == ids;
    hide Unused, PoolFacts, NewRows;
  }

  lemma OtherPools(w: World, w': World, room: Room, pairs: seq<ChallengePair>, r: Room)
    requires PoolOk(w.db, w.rec, r) && Activates(w, w', room, pairs) && r != room
    ensures PoolOk(w'.db, w'.rec, r)
  {
    UnusedAppend(w.db.challenges, NewRows(room, pairs, w.db.nextId), r);
    UnusedNew(room, pairs, w.db.nextId, r);
    hide Unused, PoolFacts, NewRows;
    assert Unused(w.db.challenges, r) + [] == Unused(w.db.challenges, r);
  }

  lemma PoolActivate(w: World, w': World, room: Room, pairs: seq<ChallengePair>)
    requires PoolInv(w) && Activates(w, w', room, pairs)
    ensures PoolInv(w')
  {
    forall r ensures PoolOk(w'.db, w'.rec, r) {
      assert PoolOk(w.db, w.rec, r);
      hide PoolOk, Activates;
      if r == room {
        ActivatedRoom(w, w', room, pairs);
      } else {
        OtherPools(w, w', room, pairs, r);
      }
    }
    forall d ensures OpenOk(w'.ram, w'.rec, d) {
      assert OpenOk(w.ram, w.rec, d);
    }
  }

  lemma PoolDelete(w: World, w': World, room: Room)
    requires PoolInv(w) && w'.db == DeleteRoom(w.db, room) && w'.ram.peers == w.ram.peers
    requires w'.rec == w.rec.(erasedAt := w'.rec.erasedAt)
    ensures PoolInv(w')
  {
    forall r ensures PoolOk(w'.db, w'.rec, r) {
      assert PoolOk(w.db, w.rec, r);
      UnusedWithout(w.db.challenges, room, r);
      hide Unused, Without;
    }
    forall d ensures OpenOk(w'.ram, w'.rec, d) {
      assert OpenOk(w.ram, w.rec, d);
    }
  }

  // ---------- counting ----------

  lemma {:induction false} ToSetSize(ids: seq<nat>)
    ensures |ToSet(ids)| <= |ids|
  {
    if ids != [] {
      var front, last := ids[..|ids| - 1], ids[|ids| - 1];
      ToSetSize(front);
      assert ids == front + [last];
      assert ToSet(ids) == ToSet(front) + {last};
    }
  }

  lemma SubsetSize<T>(a: set<T>, b: set<T>)
    requires a <= b
    ensures |a| <= |b|
  {
    assert b == a + (b - a);
  }

  /** Every fresh token took a challenge, so there are at most as many as were handed out, and of those at most five
      or ten for each participant that the room admits. */
  lemma PoolBounds(w: World, r: Room)
    requires PoolInv(w)
    ensures |Redeemed(w.rec, r)| <= |IdsOf(w.rec.handedOut, r)| <= |IdsOf(w.rec.pool, r)|
    ensures IdsOf(w.rec.handedOut, r) == IdsOf(w.rec.pool, r)[..|IdsOf(w.rec.handedOut, r)|]
            && Increasing(IdsOf(w.rec.pool, r))
    ensures IdsOf(w.rec.pool, r) != [] ==> r in w.rec.quota && |IdsOf(w.rec.pool, r)| == w.rec.quota[r]
  {
    assert PoolOk(w.db, w.rec, r);
    ToSetSize(IdsOf(w.rec.handedOut, r));
    SubsetSize(Redeemed(w.rec, r), ToSet(IdsOf(w.rec.handedOut, r)));
    hide Unused;
  }
}
