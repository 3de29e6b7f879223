/** The room registry of the typing-race server and its four event handlers:
    joining (first-fit matchmaking), a progress update, a restart and a
    disconnect. The server's `rooms` table and the room each connection
    joined are the fields of one `Server` object; every handler runs to
    completion before the next one starts, and returns the events it sends
    out, in the order it sends them. */
module Registry {
  import opened Typing

  datatype Option<T> = None | Some(value: T)

  /** A wall-clock reading in milliseconds since the epoch, as `Date.now()`
      returns it; always positive, so an unset timestamp is the only falsy one. */
  type Time = t: int | t > 0 witness 1

  type ConnId = string
  type RoomId = string

  /** A join never adds a player to a room that already holds this many. */
  const Capacity: nat := 4
  /** The race clock starts once a room holds this many players. */
  const StartThreshold: nat := 2

  /** The passage every room races on. */
  const RaceText: string := "Typing Race is a real-time multiplayer game where users compete by typing the given text as fast and accurately as possible."

  datatype Player = Player(
    username: string,
    progress: Ratio,
    typedText: string,
    finished: bool,
    startTypingTime: Option<Time>,
    wpm: nat)

  datatype Room = Room(players: map<ConnId, Player>, text: string, startTime: Option<Time>)

  /** Who receives an event: one connection, or every connection in a room. */
  datatype Target = ToConn(conn: ConnId) | ToRoom(room: RoomId)

  datatype Event =
    | TextEvent(text: string)
    | PlayersUpdate(players: map<ConnId, Player>)
    | StartTimer(at: Time)
    | TypingFeedback(isCorrect: bool)
    | GameFinished(winner: string, wpm: nat)
    | RestartSignal

  datatype Effect = Emit(target: Target, event: Event)

  /** The record a join creates for a player racing on `text`. */
  function Initial(username: string, text: string): Player
    requires |text| > 0
  {
    Player(username, ProgressOf(0, |text|), [], false, None, 0)
  }

  /** A restart clears a player's race fields and keeps the name: the player
      is back to the record a join creates. */
  function Reset(p: Player, text: string): (q: Player)
    requires |text| > 0
    ensures q.username == p.username
    ensures q.typedText == [] && q.progress.num == 0 && !q.finished
    ensures q.startTypingTime == None && q.wpm == 0
  {
    Initial(p.username, text)
  }

  /** A JavaScript timestamp in arithmetic: `null` counts as 0. */
  function Since(t: Option<Time>): int
  {
    if t.Some? then t.value else 0
  }

  /** The player record after a progress event carrying buffer `typed` at
      `now`, before the finish check: the typing clock starts on a
      one-character buffer if it has not started, the buffer is replaced,
      progress is the clamped fraction of the text, and the speed is the
      whole words per minute since the typing clock started. */
  function Keystroke(p: Player, typed: string, text: string, now: Time): (q: Player)
    requires |text| > 0
    ensures q.username == p.username && q.finished == p.finished
    ensures q.typedText == typed
    ensures q.progress == ProgressOf(|typed|, |text|)
    ensures q.progress.den == |text| && q.progress.num <= q.progress.den
    ensures q.progress.num == q.progress.den <==> |typed| >= |text|
    ensures |typed| <= |text| ==> q.progress.num == |typed|
    ensures p.startTypingTime.Some? ==> q.startTypingTime == p.startTypingTime
    ensures p.startTypingTime.None? ==>
      q.startTypingTime == (if |typed| == 1 then Some(now) else None)
    ensures q.wpm == Wpm(WordCount(typed), now - Since(q.startTypingTime))
  {
    var start := if p.startTypingTime.None? && |typed| == 1 then Some(now) else p.startTypingTime;
    p.(typedText := typed, progress := ProgressOf(|typed|, |text|), startTypingTime := start,
       wpm := Wpm(WordCount(typed), now - Since(start)))
  }

  /** Whether a progress event with buffer `typed` announces `p` as the
      winner: the buffer equals the text and `p` has not finished yet. */
  predicate Announces(p: Player, typed: string, text: string)
  {
    typed == text && !p.finished
  }

  /** The record a progress event leaves behind: Keystroke, and marked
      finished from the first buffer equal to the text on. */
  function Advance(p: Player, typed: string, text: string, now: Time): (q: Player)
    requires |text| > 0
    ensures q.finished <==> p.finished || typed == text
    ensures q.(finished := false) == Keystroke(p, typed, text, now).(finished := false)
  {
    Keystroke(p, typed, text, now).(finished := p.finished || Announces(p, typed, text))
  }

  /** How many `game_finished` events a run of progress events, with no
      restart in between, sends for player `p`. */
  function Announcements(p: Player, run: seq<(string, Time)>, text: string): nat
    requires |text| > 0
    decreases |run|
  {
    if run == [] then 0
    else
      (if Announces(p, run[0].0, text) then 1 else 0)
        + Announcements(Advance(p, run[0].0, text, run[0].1), run[1..], text)
  }

  /** Between restarts a player is announced at most once, and never after
      finishing. */
  lemma {:induction false} AnnouncedAtMostOnce(p: Player, run: seq<(string, Time)>, text: string)
    requires |text| > 0
    ensures Announcements(p, run, text) <= if p.finished then 0 else 1
    decreases |run|
  {
    if run != [] {
      AnnouncedAtMostOnce(Advance(p, run[0].0, text, run[0].1), run[1..], text);
    }
  }

  /** The progress a player record stores agrees with its buffer. */
  predicate PlayerOk(p: Player, text: string)
    requires |text| > 0
  {
    p.progress == ProgressOf(|p.typedText|, |text|)
  }

  /** A live room races on `text`, is never empty, never over capacity, and
      every record in it is PlayerOk. The quantifier fires only where a proof
      names PlayerOk of a record. */
  predicate RoomOk(r: Room, text: string)
  {
    && |text| > 0
    && r.text == text
    && 1 <= |r.players| <= Capacity
    && forall c {:trigger PlayerOk(r.players[c], text)} :: c in r.players ==> PlayerOk(r.players[c], text)
  }

  /** No id occurs twice in `s`. */
  predicate Distinct(s: seq<RoomId>)
  {
    s == [] || (s[0] !in s[1..] && Distinct(s[1..]))
  }

  lemma {:induction false} DistinctAppend(s: seq<RoomId>, x: RoomId)
    requires Distinct(s) && x !in s
    ensures Distinct(s + [x])
  {
    if s != [] {
      assert (s + [x])[1..] == s[1..] + [x];
      DistinctAppend(s[1..], x);
    }
  }

  /** Index of the first room, in creation order, that holds fewer than
      Capacity players; `|order|` when every room is full. */
  function FirstOpen(order: seq<RoomId>, rooms: map<RoomId, Room>): (k: nat)
    requires forall i :: 0 <= i < |order| ==> order[i] in rooms
    ensures k <= |order|
    ensures k < |order| ==> |rooms[order[k]].players| < Capacity
    ensures forall j :: 0 <= j < k ==> |rooms[order[j]].players| >= Capacity
  {
    if order == [] then 0
    else if |rooms[order[0]].players| < Capacity then 0
    else 1 + FirstOpen(order[1..], rooms)
  }

  /** The first-fit scan of `join_game`: walk the rooms in creation order and
      stop at the first one with a free place. */
  method FindOpenRoom(order: seq<RoomId>, rooms: map<RoomId, Room>) returns (k: nat)
    requires forall i :: 0 <= i < |order| ==> order[i] in rooms
    ensures k == FirstOpen(order, rooms)
  {
    k := 0;
    while k < |order| && |rooms[order[k]].players| >= Capacity
      invariant k <= |order|
      invariant forall j :: 0 <= j < k ==> |rooms[order[j]].players| >= Capacity
    {
      k := k + 1;
    }
  }

  /** `s` with `x` taken out, the others kept in their order. */
  function Without(s: seq<RoomId>, x: RoomId): (r: seq<RoomId>)
    ensures forall y :: y in r <==> y in s && y != x
    ensures x !in s ==> r == s
    ensures Distinct(s) ==> Distinct(r)
  {
    if s == [] then []
    else if s[0] == x then Without(s[1..], x)
    else [s[0]] + Without(s[1..], x)
  }

  /** Removing a live room's id from the creation order cuts out its one
      occurrence and keeps every other id in its place. */
  lemma {:induction false} WithoutKeepsOrder(s: seq<RoomId>, x: RoomId)
    requires Distinct(s) && x in s
    ensures exists i :: 0 <= i < |s| && s[i] == x && Without(s, x) == s[..i] + s[i + 1..]
  {
    if s[0] == x {
      assert Without(s, x) == s[..0] + s[1..];
    } else {
      WithoutKeepsOrder(s[1..], x);
      var j :| 0 <= j < |s[1..]| && s[1..][j] == x && Without(s[1..], x) == s[1..][..j] + s[1..][j + 1..];
      assert s[j + 1] == x;
      assert s[..j + 1] + s[j + 2..] == [s[0]] + (s[1..][..j] + s[1..][j + 1..]);
    }
  }

  /** Some string is longer than every string of a finite set. */
  lemma {:induction false} LongerThanAll(ids: set<RoomId>) returns (n: nat)
    ensures forall id :: id in ids ==> |id| < n
    decreases ids
  {
    if ids == {} {
      n := 0;
    } else {
      var x :| x in ids;
      var m := LongerThanAll(ids - {x});
      n := if |x| < m then m else |x| + 1;
    }
  }

  /** However many rooms are live, a new non-empty room id is available. */
  lemma FreshRoomIdExists(ids: set<RoomId>)
    ensures exists id: RoomId :: id != [] && id !in ids
  {
    var n := LongerThanAll(ids);
    var id: RoomId := seq(n + 1, _ => 'r');
    assert id != [] && id !in ids;
  }

  /** Room `id` is in the table. The table's invariant quantifies over live
      rooms through this name only, so a proof instantiates it just for the
      rooms it names. */
  predicate Live(rooms: map<RoomId, Room>, id: RoomId)
  {
    id in rooms
  }

  /** The table's invariant: `order` lists each live room exactly once, and
      every live room has a non-empty id and is RoomOk. */
  ghost predicate TableOk(rooms: map<RoomId, Room>, order: seq<RoomId>, text: string)
  {
    && Distinct(order)
    && (forall i :: 0 <= i < |order| ==> Live(rooms, order[i]))
    && (forall id {:trigger Live(rooms, id)} :: Live(rooms, id) ==> id in order && id != [] && RoomOk(rooms[id], text))
  }

  /** Every connection's room is live and holds that connection's player. */
  ghost predicate Consistent(roomOf: map<ConnId, RoomId>, rooms: map<RoomId, Room>)
  {
    forall c :: c in roomOf ==> roomOf[c] in rooms && c in rooms[roomOf[c]].players
  }

  /** Connection `c` has joined a room that is live and still holds its player. */
  predicate HasPlayer(roomOf: map<ConnId, RoomId>, rooms: map<RoomId, Room>, c: ConnId)
  {
    c in roomOf && roomOf[c] in rooms && c in rooms[roomOf[c]].players
  }

  /** Replacing a live room by a good room keeps the table good. */
  lemma ReplaceRoomOk(rooms: map<RoomId, Room>, order: seq<RoomId>, text: string, id: RoomId, room: Room)
    requires TableOk(rooms, order, text) && id in rooms && RoomOk(room, text)
    ensures TableOk(rooms[id := room], order, text)
  {
    var next := rooms[id := room];
    forall i | 0 <= i < |order| ensures Live(next, order[i]) {
      assert Live(rooms, order[i]);
    }
    forall x | Live(next, x) ensures x in order && x != [] && RoomOk(next[x], text) {
      assert Live(rooms, x);
    }
  }

  /** Adding a good room under a fresh id, at the end of the order, keeps the table good. */
  lemma AddRoomOk(rooms: map<RoomId, Room>, order: seq<RoomId>, text: string, id: RoomId, room: Room)
    requires TableOk(rooms, order, text) && id !in rooms && id != [] && RoomOk(room, text)
    ensures TableOk(rooms[id := room], order + [id], text)
  {
    var next, order' := rooms[id := room], order + [id];
    assert id !in order;
    DistinctAppend(order, id);
    forall i | 0 <= i < |order'| ensures Live(next, order'[i]) {
      if i < |order| {
        assert Live(rooms, order[i]);
      }
    }
    forall x | Live(next, x) ensures x in order' && x != [] && RoomOk(next[x], text) {
      if x != id {
        assert Live(rooms, x);
      }
    }
  }

  /** Deleting a room, from the table and from the order, keeps the table good. */
  lemma DeleteRoomOk(rooms: map<RoomId, Room>, order: seq<RoomId>, text: string, id: RoomId)
    requires TableOk(rooms, order, text)
    ensures TableOk(rooms - {id}, Without(order, id), text)
  {
    var left, rest := rooms - {id}, Without(order, id);
    forall i | 0 <= i < |rest| ensures Live(left, rest[i]) {
      assert rest[i] in rest;
      var j :| 0 <= j < |order| && order[j] == rest[i];
      assert Live(rooms, order[j]);
    }
    forall x | Live(left, x) ensures x in rest && x != [] && RoomOk(left[x], text) {
      assert Live(rooms, x);
    }
  }

  /** The room a join enters: the live room `id`, or a new room with no
      players, the race text and no start time. */
  function Entered(rooms: map<RoomId, Room>, id: RoomId, text: string): Room
  {
    if id in rooms then rooms[id] else Room(map[], text, None)
  }

  /** Room `base` after connection `c` joins it under `username` at `now`:
      the connection gets a fresh record, nobody else changes, and the clock
      starts if the room now holds StartThreshold players and has not
      started; a clock already started is never restarted by a join. */
  function Admit(base: Room, c: ConnId, username: string, now: Time): (after: Room)
    requires |base.text| > 0
    ensures after.text == base.text
    ensures forall d :: d in after.players <==> d in base.players || d == c
    ensures |after.players| == if c in base.players then |base.players| else |base.players| + 1
    ensures after.players[c] == Initial(username, base.text)
    ensures forall d :: d in base.players && d != c ==> after.players[d] == base.players[d]
    ensures base.startTime.Some? ==> after.startTime == base.startTime
    ensures base.startTime.None? ==>
      after.startTime == (if |after.players| >= StartThreshold then Some(now) else None)
  {
    var players := base.players[c := Initial(username, base.text)];
    Room(players, base.text, if |players| >= StartThreshold && base.startTime.None? then Some(now) else base.startTime)
  }

  /** How many `start_timer` events a run of joins into room `base` sends;
      each join is a connection, a username and a time. */
  function StartTimers(base: Room, joins: seq<(ConnId, string, Time)>): nat
    requires |base.text| > 0
    decreases |joins|
  {
    if joins == [] then 0
    else
      var after := Admit(base, joins[0].0, joins[0].1, joins[0].2);
      (if after.startTime != base.startTime then 1 else 0) + StartTimers(after, joins[1..])
  }

  /** Joins start a room's clock at most once, and never once it has started. */
  lemma {:induction false} StartTimerAtMostOnce(base: Room, joins: seq<(ConnId, string, Time)>)
    requires |base.text| > 0
    ensures StartTimers(base, joins) <= if base.startTime.Some? then 0 else 1
    decreases |joins|
  {
    if joins != [] {
      StartTimerAtMostOnce(Admit(base, joins[0].0, joins[0].1, joins[0].2), joins[1..]);
    }
  }

  /** A join into a room with a free place, or into a new room, keeps the
      table good; in particular no room goes over Capacity. */
  lemma JoinKeepsTable(rooms: map<RoomId, Room>, order: seq<RoomId>, order': seq<RoomId>, text: string,
                       id: RoomId, c: ConnId, username: string, now: Time)
    requires TableOk(rooms, order, text) && |text| > 0
    requires id in rooms ==> |rooms[id].players| < Capacity
    requires id != []
    requires order' == if id in rooms then order else order + [id]
    ensures id in rooms ==> Live(rooms, id)
    ensures var after := Admit(Entered(rooms, id, text), c, username, now);
      && RoomOk(after, text)
      && TableOk(rooms[id := after], order', text)
  {
    var base := Entered(rooms, id, text);
    assert id in rooms ==> Live(rooms, id);
    var after := Admit(base, c, username, now);
    forall d | d in after.players ensures PlayerOk(after.players[d], text) {
      if d != c {
        assert PlayerOk(base.players[d], text);
      }
    }
    assert RoomOk(after, text);
    if id in rooms {
      ReplaceRoomOk(rooms, order, text, id, after);
    } else {
      AddRoomOk(rooms, order, text, id, after);
    }
  }

  /** A join keeps every connection's room live and holding its player. */
  lemma JoinConsistent(roomOf: map<ConnId, RoomId>, rooms: map<RoomId, Room>, c: ConnId, id: RoomId, room: Room)
    requires id in rooms ==> forall d :: d in rooms[id].players ==> d in room.players
    requires c in room.players
    ensures Consistent(roomOf, rooms) ==> Consistent(roomOf[c := id], rooms[id := room])
  {
  }

  /** Changing the records of a room, but not who is in it, keeps every
      connection's room live and holding its player. */
  lemma SamePlayersConsistent(roomOf: map<ConnId, RoomId>, rooms: map<RoomId, Room>, id: RoomId, room: Room)
    requires id in rooms && rooms[id].players.Keys == room.players.Keys
    ensures Consistent(roomOf, rooms) ==> Consistent(roomOf, rooms[id := room])
  {
  }

  /** A disconnect keeps every other connection's room live and holding its
      player: a room it empties held nobody else, and a connection whose room
      is gone takes nothing with it. */
  lemma LeaveConsistent(roomOf: map<ConnId, RoomId>, rooms: map<RoomId, Room>, c: ConnId, rooms': map<RoomId, Room>)
    requires c in roomOf && roomOf[c] != [] && roomOf[c] in rooms ==>
      var id := roomOf[c];
      var left := rooms[id].players - {c};
      rooms' == if |left| == 0 then rooms - {id} else rooms[id := rooms[id].(players := left)]
    requires !(c in roomOf && roomOf[c] != [] && roomOf[c] in rooms) ==> rooms' == rooms
    ensures Consistent(roomOf, rooms) ==> Consistent(roomOf - {c}, rooms')
  {
    if Consistent(roomOf, rooms) && c in roomOf {
      var id := roomOf[c];
      forall d | d in roomOf - {c} && roomOf[d] == id ensures d in rooms[id].players - {c} {
      }
    }
  }

  class Server {
    /** The passage every room of this server races on. */
    const text: string
    /** The `rooms` table: room id to room. */
    var rooms: map<RoomId, Room>
    /** The ids of `rooms` in creation order, the order of the first-fit scan. */
    var order: seq<RoomId>
    /** The room each live connection last joined (`socket.roomId`). */
    var roomOf: map<ConnId, RoomId>

    ghost predicate Valid()
      reads this
    {
      |text| > 0 && TableOk(rooms, order, text)
    }

    ghost predicate Tracked()
      reads this
    {
      Consistent(roomOf, rooms)
    }

    /** The server at start-up: no rooms and no connections. */
    constructor ()
      ensures Valid() && Tracked()
      ensures text == RaceText
      ensures rooms == map[] && order == [] && roomOf == map[]
    {
      text := RaceText;
      rooms, order, roomOf := map[], [], map[];
    }

    /** `join_game`: put connection `c` in the first room with a free place,
        or in a new room when every room is full, with a fresh player record;
        send it the text and the room the records, and start the room's
        clock when it reaches two players and has none. */
    method Join(c: ConnId, username: string, now: Time) returns (id: RoomId, sent: seq<Effect>)
      requires Valid()
      modifies this
      ensures Valid()
      ensures old(Tracked()) ==> Tracked()
      ensures var k := FirstOpen(old(order), old(rooms));
        if k < |old(order)| then id == old(order)[k] && order == old(order)
        else id != [] && id !in old(rooms) && order == old(order) + [id]
      ensures rooms == old(rooms)[id := Admit(Entered(old(rooms), id, text), c, username, now)]
      ensures var before, after := Entered(old(rooms), id, text), rooms[id];
        sent == [Emit(ToConn(c), TextEvent(after.text)), Emit(ToRoom(id), PlayersUpdate(after.players))]
          + (if after.startTime != before.startTime then [Emit(ToRoom(id), StartTimer(now))] else [])
      ensures roomOf == old(roomOf)[c := id]
    {
      assert forall i :: 0 <= i < |order| ==> order[i] in rooms by {
        forall i | 0 <= i < |order| ensures order[i] in rooms {
          assert Live(rooms, order[i]);
        }
      }
      var k := FindOpenRoom(order, rooms);
      if k < |order| {
        id := order[k];
      } else {
        FreshRoomIdExists(rooms.Keys);
        id :| id != [] && id !in rooms;
      }
      var before := Entered(rooms, id, text);
      var room := Admit(before, c, username, now);
      sent := [Emit(ToConn(c), TextEvent(room.text)), Emit(ToRoom(id), PlayersUpdate(room.players))]
        + (if room.startTime != before.startTime then [Emit(ToRoom(id), StartTimer(now))] else []);
      var order' := if id in rooms then order else order + [id];
      JoinKeepsTable(rooms, order, order', text, id, c, username, now);
      JoinConsistent(roomOf, rooms, c, id, room);
      rooms, order, roomOf := rooms[id := room], order', roomOf[c := id];
    }

    /** `progress`: connection `c` reports its whole buffer `typed` at `now`.
        Nothing happens unless the connection's room is live and holds its
        player. Otherwise the player record is updated (Keystroke), the
        connection is told whether the buffer is a prefix of the text, the
        room gets the new records, and a player whose buffer now equals the
        text and who had not finished is marked finished and announced. */
    method Progress(c: ConnId, typed: string, now: Time) returns (sent: seq<Effect>)
      requires Valid()
      modifies this
      ensures Valid()
      ensures old(Tracked()) ==> Tracked()
      ensures order == old(order) && roomOf == old(roomOf)
      ensures !HasPlayer(old(roomOf), old(rooms), c) ==> rooms == old(rooms) && sent == []
      ensures HasPlayer(old(roomOf), old(rooms), c) ==>
        var id := old(roomOf)[c];
        var room := old(rooms)[id];
        var p := room.players[c];
        var q := Keystroke(p, typed, text, now);
        && rooms == old(rooms)[id := room.(players := room.players[c := Advance(p, typed, text, now)])]
        && sent == [Emit(ToConn(c), TypingFeedback(Matches(typed, text))),
                    Emit(ToRoom(id), PlayersUpdate(room.players[c := q]))]
                   + (if Announces(p, typed, text) then [Emit(ToRoom(id), GameFinished(p.username, q.wpm))] else [])
    {
      sent := [];
      if c !in roomOf {
        return;
      }
      var id := roomOf[c];
      if id == [] || id !in rooms {
        assert id in rooms ==> Live(rooms, id);
        return;
      }
      var room := rooms[id];
      if c !in room.players {
        return;
      }
      assert Live(rooms, id);
      var correct := room.text;
      var player := room.players[c];
      var updated := Keystroke(player, typed, correct, now);
      sent := [Emit(ToConn(c), TypingFeedback(Matches(typed, correct))),
               Emit(ToRoom(id), PlayersUpdate(room.players[c := updated]))];
      if Announces(player, typed, correct) {
        sent := sent + [Emit(ToRoom(id), GameFinished(updated.username, updated.wpm))];
      }
      room := room.(players := room.players[c := Advance(player, typed, correct, now)]);

      forall d | d in room.players ensures PlayerOk(room.players[d], text) {
        if d != c {
          assert PlayerOk(rooms[id].players[d], text);
        }
      }
      ReplaceRoomOk(rooms, order, text, id, room);
      SamePlayersConsistent(roomOf, rooms, id, room);
      rooms := rooms[id := room];
    }

    /** `restart_game`: nothing happens for a room that is not live.
        Otherwise every player of the room is Reset, the room's clock is
        restarted at `now` whatever the number of players, and the room is
        sent the text, the records, the restart signal and the new start
        time, in that order. */
    method Restart(id: RoomId, now: Time) returns (sent: seq<Effect>)
      requires Valid()
      modifies this
      ensures Valid()
      ensures old(Tracked()) ==> Tracked()
      ensures order == old(order) && roomOf == old(roomOf)
      ensures id !in old(rooms) ==> rooms == old(rooms) && sent == []
      ensures id in old(rooms) ==>
        var room := old(rooms)[id];
        var players := map k | k in room.players :: Reset(room.players[k], text);
        && rooms == old(rooms)[id := Room(players, room.text, Some(now))]
        && sent == [Emit(ToRoom(id), TextEvent(room.text)), Emit(ToRoom(id), PlayersUpdate(players)),
                    Emit(ToRoom(id), RestartSignal), Emit(ToRoom(id), StartTimer(now))]
    {
      if id !in rooms {
        return [];
      }
      assert Live(rooms, id);
      var room := rooms[id];
      var players := room.players;
      var todo := players.Keys;
      while todo != {}
        invariant todo <= room.players.Keys
        invariant players.Keys == room.players.Keys
        invariant forall k :: k in players ==>
          players[k] == if k in todo then room.players[k] else Reset(room.players[k], text)
        decreases todo
      {
        var k :| k in todo;
        players := players[k := Reset(players[k], text)];
        todo := todo - {k};
      }
      room := room.(players := players, startTime := Some(now));
      sent := [Emit(ToRoom(id), TextEvent(room.text)), Emit(ToRoom(id), PlayersUpdate(room.players)),
               Emit(ToRoom(id), RestartSignal), Emit(ToRoom(id), StartTimer(now))];

      assert players == map k | k in old(rooms)[id].players :: Reset(old(rooms)[id].players[k], text);
      forall d | d in room.players ensures PlayerOk(room.players[d], text) {
      }
      ReplaceRoomOk(rooms, order, text, id, room);
      SamePlayersConsistent(roomOf, rooms, id, room);
      rooms := rooms[id := room];
    }

    /** `disconnect`: connection `c` goes away. If its room is live, its
        player leaves the room, the room is sent the remaining records, and
        a room left empty is deleted. */
    method Disconnect(c: ConnId) returns (sent: seq<Effect>)
      requires Valid()
      modifies this
      ensures Valid()
      ensures old(Tracked()) ==> Tracked()
      ensures roomOf == old(roomOf) - {c}
      ensures !(c in old(roomOf) && old(roomOf)[c] != [] && old(roomOf)[c] in old(rooms)) ==>
        rooms == old(rooms) && order == old(order) && sent == []
      ensures c in old(roomOf) && old(roomOf)[c] != [] && old(roomOf)[c] in old(rooms) ==>
        var id := old(roomOf)[c];
        var left := old(rooms)[id].players - {c};
        && sent == [Emit(ToRoom(id), PlayersUpdate(left))]
        && if |left| == 0 then rooms == old(rooms) - {id} && order == Without(old(order), id)
           else rooms == old(rooms)[id := old(rooms)[id].(players := left)] && order == old(order)
    {
      sent := [];
      if c in roomOf && roomOf[c] != [] && roomOf[c] in rooms {
        var id := roomOf[c];
        assert Live(rooms, id);
        var left := rooms[id].players - {c};
        sent := [Emit(ToRoom(id), PlayersUpdate(left))];
        if |left| == 0 {
          DeleteRoomOk(rooms, order, text, id);
          LeaveConsistent(roomOf, rooms, c, rooms - {id});
          rooms, order := rooms - {id}, Without(order, id);
        } else {
          var room := rooms[id].(players := left);
          forall d | d in left ensures PlayerOk(room.players[d], text) {
            assert PlayerOk(rooms[id].players[d], text);
          }
          ReplaceRoomOk(rooms, order, text, id, room);
          LeaveConsistent(roomOf, rooms, c, rooms[id := room]);
          rooms := rooms[id := room];
        }
      } else {
        LeaveConsistent(roomOf, rooms, c, rooms);
      }
      roomOf := roomOf - {c};
    }
  }
}
