/** The synchronous state transitions of the game server (reversi_server/src/main.rs): the
    table of connections, the table of games, and the handler of each client message.
    Each handler is one atomic step from a server state to the next state and the messages
    it queues. A connection's sender channel is replaced by its address: the outbox maps
    every recipient to the messages queued for it, in the order they were sent. */
module Server {
  import opened Results
  import opened Board
  import opened Session
  import opened Messages

  /** A client's socket address; only its identity matters. */
  type Addr = nat

  /** Rust's `u32::MAX`; `add_new_game` tries the ids 1 .. U32Max - 1. */
  const U32Max: int := 0xFFFF_FFFF

  /** The game a connection is attached to, if any. */
  datatype ConnectionData = ConnectionData(gameId: Option<GameId>)

  datatype ServerData = ServerData(
    connections: map<Addr, ConnectionData>,
    games: map<GameId, ReversiData>)

  /** The messages each recipient receives from one step, oldest first. */
  type Outbox = map<Addr, seq<ServerMessage>>

  /** The result of one handler: the next state and what it sent. */
  datatype Handled = Handled(state: ServerData, outbox: Outbox)

  /** Every connection that names a game names one that exists. */
  ghost predicate Valid(s: ServerData) {
    forall a :: a in s.connections && s.connections[a].gameId.Some? ==>
      s.connections[a].gameId.value in s.games
  }

  /** `ServerData::new`: no connections and no games. */
  function NewServerData(): (s: ServerData)
    ensures |s.connections| == 0 && |s.games| == 0
    ensures Valid(s)
  {
    ServerData(map[], map[])
  }

  /** `add_connectin`: registers (or replaces) the connection at `addr`. */
  function AddConnection(s: ServerData, addr: Addr, conn: ConnectionData): (r: ServerData)
    ensures r.games == s.games
    ensures r.connections.Keys == s.connections.Keys + {addr}
    ensures r.connections[addr] == conn
    ensures forall a :: a in s.connections && a != addr ==> r.connections[a] == s.connections[a]
  {
    s.(connections := s.connections[addr := conn])
  }

  /** The disconnect step of `handle_connection`: forgets the connection at `addr`. The
      games stay, including one nobody is attached to any more. */
  function RemoveConnection(s: ServerData, addr: Addr): (r: ServerData)
    ensures r.games == s.games
    ensures r.connections.Keys == s.connections.Keys - {addr}
    ensures forall a :: a in r.connections ==> r.connections[a] == s.connections[a]
  {
    s.(connections := s.connections - {addr})
  }

  /** Disconnecting a client that had just connected restores the state. */
  lemma ConnectRoundTrip(s: ServerData, addr: Addr, conn: ConnectionData)
    requires addr !in s.connections
    ensures RemoveConnection(AddConnection(s, addr, conn), addr) == s
  {
    var r := RemoveConnection(AddConnection(s, addr, conn), addr);
    assert r.connections == s.connections;
  }

  /** Connecting with no game (as `handle_connection` does) and disconnecting keep every
      connection's game in the table. */
  lemma ConnectionsKeepValid(s: ServerData, addr: Addr)
    requires Valid(s)
    ensures Valid(AddConnection(s, addr, ConnectionData(None)))
    ensures Valid(RemoveConnection(s, addr))
  {
  }

  /** `id` is the smallest number in [1, u32::MAX) that no game uses. */
  ghost predicate IsFirstFree(games: map<GameId, ReversiData>, id: GameId) {
    && 1 <= id.id < U32Max
    && id !in games
    && forall i :: 1 <= i < id.id ==> GameId(i) in games
  }

  /** Every id `add_new_game` may hand out is in use. */
  ghost predicate AllIdsTaken(games: map<GameId, ReversiData>) {
    forall i :: 1 <= i < U32Max ==> GameId(i) in games
  }

  /** `add_new_game`: the first free id from 1 upwards gets a fresh game; when every id
      below `u32::MAX` is taken the table is left alone and the result is an error. */
  method AddNewGame(games: map<GameId, ReversiData>)
    returns (result: Result<GameId, ()>, games': map<GameId, ReversiData>)
    ensures result.Ok? ==> IsFirstFree(games, result.value)
    ensures result.Ok? ==> games' == games[result.value := CreateInitialData()]
    ensures result.Err? ==> AllIdsTaken(games) && games' == games
  {
    var i := 1;
    while i < U32Max
      invariant 1 <= i <= U32Max
      invariant forall j :: 1 <= j < i ==> GameId(j) in games
    {
      if GameId(i) !in games {
        return Ok(GameId(i)), games[GameId(i) := CreateInitialData()];
      }
      i := i + 1;
    }
    return Err(()), games;
  }

  /** The ids 1 .. n - 1. */
  ghost function IdRange(n: int): set<GameId>
    requires 1 <= n <= U32Max
  {
    set i | 1 <= i < n :: GameId(i)
  }

  lemma {:induction false} IdRangeSize(n: int)
    requires 1 <= n <= U32Max
    ensures |IdRange(n)| == n - 1
    decreases n
  {
    if n > 1 {
      IdRangeSize(n - 1);
      assert IdRange(n) == IdRange(n - 1) + {GameId(n - 1)};
    }
  }

  lemma SubsetSize<T>(a: set<T>, b: set<T>)
    requires a <= b
    ensures |a| <= |b|
  {
    assert b == a + (b - a);
  }

  /** `add_new_game` cannot fail while fewer than u32::MAX - 1 games exist, so the
      `unwrap` of `handle_creategame` panics only on a table of 4294967294 games. */
  lemma FreeIdWhileRoom(games: map<GameId, ReversiData>)
    requires |games| < U32Max - 1
    ensures !AllIdsTaken(games)
  {
    if AllIdsTaken(games) {
      IdRangeSize(U32Max);
      SubsetSize(IdRange(U32Max), games.Keys);
      assert false;
    }
  }

  /** The connections attached to game `id`. */
  function MemberSet(conns: map<Addr, ConnectionData>, id: GameId): set<Addr> {
    set a | a in conns && conns[a].gameId == Some(id)
  }

  /** One lobby line as `get_game_summary_list` builds it: the member count is truncated to
      32 bits by `as u32`, and `your` compares the recipient's game with `id`. */
  function Summary(s: ServerData, addr: Addr, id: GameId): GameSummary
    requires addr in s.connections
  {
    GameSummary(id, |MemberSet(s.connections, id)| % 0x1_0000_0000,
                s.connections[addr].gameId == Some(id))
  }

  lemma {:induction false} MinIdExists(ids: set<GameId>)
    requires ids != {}
    ensures exists m :: m in ids && forall k :: k in ids ==> m.id <= k.id
    decreases ids
  {
    var x :| x in ids;
    if ids != {x} {
      MinIdExists(ids - {x});
      var m :| m in ids - {x} && forall k :: k in ids - {x} ==> m.id <= k.id;
      if x.id < m.id {
        assert forall k :: k in ids ==> x.id <= k.id;
      } else {
        assert forall k :: k in ids ==> m.id <= k.id;
      }
    }
  }

  /** The game in `ids` with the smallest number. */
  function MinId(ids: set<GameId>): (m: GameId)
    requires ids != {}
    ensures m in ids && forall k :: k in ids ==> m.id <= k.id
  {
    MinIdExists(ids);
    var m :| m in ids && forall k :: k in ids ==> m.id <= k.id;
    m
  }

  /** The ids of `ids` in strictly ascending order (the `sort_by_key` on the id). */
  function SortedIds(ids: set<GameId>): (r: seq<GameId>)
    ensures |r| == |ids|
    ensures forall k :: k in r <==> k in ids
    ensures forall i, j :: 0 <= i < j < |r| ==> r[i].id < r[j].id
    decreases |ids|
  {
    if ids == {} then []
    else
      var m := MinId(ids);
      var rest := SortedIds(ids - {m});
      PrependMin(ids, m, rest);
      [m] + rest
  }

  /** The smallest id followed by the others in ascending order lists `ids` ascending. */
  lemma PrependMin(ids: set<GameId>, m: GameId, rest: seq<GameId>)
    requires m in ids && forall k :: k in ids ==> m.id <= k.id
    requires |rest| == |ids - {m}|
    requires forall k :: k in rest <==> k in ids - {m}
    requires forall i, j :: 0 <= i < j < |rest| ==> rest[i].id < rest[j].id
    ensures |[m] + rest| == |ids|
    ensures forall k :: k in [m] + rest <==> k in ids
    ensures forall i, j :: 0 <= i < j < |[m] + rest| ==> ([m] + rest)[i].id < ([m] + rest)[j].id
  {
    var r := [m] + rest;
    forall i, j | 0 <= i < j < |r| ensures r[i].id < r[j].id {
      assert r[j] == rest[j - 1] && r[j] in rest;
      if i > 0 {
        assert r[i] == rest[i - 1];
      }
    }
  }

  /** `get_game_summary_list`: one line per game, in ascending id order. The recipient's
      connection is looked up (and unwrapped) once per game, so only a server without games
      may answer an unknown address. `SummaryListGames`, `SummaryListSorted` and
      `SummaryListCounts` state what the lines say. */
  function SummaryList(s: ServerData, addr: Addr): (r: seq<GameSummary>)
    requires addr in s.connections || s.games == map[]
    ensures |r| == |s.games|
  {
    var ids := SortedIds(s.games.Keys);
    assert |ids| != 0 ==> addr in s.connections by {
      if |ids| != 0 {
        assert ids[0] in s.games;
      }
    }
    seq(|ids|, i requires 0 <= i < |ids| => Summary(s, addr, ids[i]))
  }

  /** Line `i` of the lobby summarizes the `i`-th smallest game id. */
  lemma SummaryLines(s: ServerData, addr: Addr)
    requires addr in s.connections || s.games == map[]
    ensures forall i :: 0 <= i < |SummaryList(s, addr)| ==>
              addr in s.connections &&
              SummaryList(s, addr)[i] == Summary(s, addr, SortedIds(s.games.Keys)[i])
  {
    var ids := SortedIds(s.games.Keys);
    if ids != [] {
      assert ids[0] in s.games;
      assert SummaryList(s, addr) == seq(|ids|, i requires 0 <= i < |ids| => Summary(s, addr, ids[i]));
    }
  }

  /** Line `i` of the lobby is about the `i`-th smallest game id. */
  lemma SummaryIds(s: ServerData, addr: Addr)
    requires addr in s.connections || s.games == map[]
    ensures |SummaryList(s, addr)| == |SortedIds(s.games.Keys)|
    ensures forall i :: 0 <= i < |SummaryList(s, addr)| ==>
              SummaryList(s, addr)[i].id == SortedIds(s.games.Keys)[i]
  {
    SummaryLines(s, addr);
  }

  /** The lobby lists every game exactly once. */
  lemma SummaryListGames(s: ServerData, addr: Addr)
    requires addr in s.connections || s.games == map[]
    ensures forall i :: 0 <= i < |SummaryList(s, addr)| ==> SummaryList(s, addr)[i].id in s.games
    ensures forall id :: id in s.games ==>
              exists i :: 0 <= i < |SummaryList(s, addr)| && SummaryList(s, addr)[i].id == id
  {
    SummaryIds(s, addr);
    LinesCoverIds(SummaryList(s, addr), SortedIds(s.games.Keys), s.games.Keys);
  }

  /** Lines whose ids are, position by position, a listing of `games` cover `games`. */
  lemma LinesCoverIds(r: seq<GameSummary>, ids: seq<GameId>, games: set<GameId>)
    requires |r| == |ids| && forall i :: 0 <= i < |r| ==> r[i].id == ids[i]
    requires forall k :: k in ids <==> k in games
    ensures forall i :: 0 <= i < |r| ==> r[i].id in games
    ensures forall id :: id in games ==> exists i :: 0 <= i < |r| && r[i].id == id
  {
    forall i | 0 <= i < |r| ensures r[i].id in games {
      assert ids[i] in ids;
    }
    forall id | id in games ensures exists i :: 0 <= i < |r| && r[i].id == id {
      var i :| 0 <= i < |ids| && ids[i] == id;
      assert r[i].id == id;
    }
  }

  /** The lobby is in strictly ascending id order. */
  lemma SummaryListSorted(s: ServerData, addr: Addr)
    requires addr in s.connections || s.games == map[]
    ensures forall i, j :: 0 <= i < j < |SummaryList(s, addr)| ==>
              SummaryList(s, addr)[i].id.id < SummaryList(s, addr)[j].id.id
  {
    SummaryIds(s, addr);
  }

  /** Each line counts the connections attached to its game, truncated to 32 bits, and is
      marked as the recipient's exactly when the recipient is attached to that game. */
  lemma SummaryListCounts(s: ServerData, addr: Addr)
    requires addr in s.connections || s.games == map[]
    ensures forall i :: 0 <= i < |SummaryList(s, addr)| ==>
              SummaryList(s, addr)[i].members
                == |MemberSet(s.connections, SummaryList(s, addr)[i].id)| % 0x1_0000_0000
    ensures forall i :: 0 <= i < |SummaryList(s, addr)| ==>
              (SummaryList(s, addr)[i].your <==>
                 s.connections[addr].gameId == Some(SummaryList(s, addr)[i].id))
  {
    SummaryLines(s, addr);
  }

  /** At most one lobby line is marked as the recipient's game. */
  lemma YourAtMostOnce(s: ServerData, addr: Addr)
    requires addr in s.connections || s.games == map[]
    ensures forall i, j :: 0 <= i < j < |SummaryList(s, addr)| ==>
              !(SummaryList(s, addr)[i].your && SummaryList(s, addr)[j].your)
  {
    var r := SummaryList(s, addr);
    SummaryListSorted(s, addr);
    SummaryListCounts(s, addr);
    forall i, j | 0 <= i < j < |r| ensures !(r[i].your && r[j].your) {
      assert r[i].id.id < r[j].id.id;
    }
  }

  /** The recipient's own game is marked exactly when it has one. */
  lemma YourIsRequesterGame(s: ServerData, addr: Addr)
    requires Valid(s) && addr in s.connections
    ensures s.connections[addr].gameId.Some? <==>
            exists i :: 0 <= i < |SummaryList(s, addr)| && SummaryList(s, addr)[i].your
  {
    var r := SummaryList(s, addr);
    SummaryListGames(s, addr);
    SummaryListCounts(s, addr);
    if s.connections[addr].gameId.Some? {
      var g := s.connections[addr].gameId.value;
      var i :| 0 <= i < |r| && r[i].id == g;
      assert r[i].your;
    }
  }

  /** Sum of the member counts of a lobby. */
  function SumMembers(r: seq<GameSummary>): nat {
    if r == [] then 0 else r[0].members + SumMembers(r[1..])
  }

  /** Sum of the member-set sizes of the games `ids`. */
  function SumMemberSets(conns: map<Addr, ConnectionData>, ids: seq<GameId>): nat {
    if ids == [] then 0 else |MemberSet(conns, ids[0])| + SumMemberSets(conns, ids[1..])
  }

  /** The connections not attached to game `id`. */
  function Without(conns: map<Addr, ConnectionData>, id: GameId): map<Addr, ConnectionData> {
    map a | a in conns && conns[a].gameId != Some(id) :: conns[a]
  }

  /** Distinct games have disjoint member sets, so their sizes add up to at most the number
      of connections. */
  lemma {:induction false} SumMemberSetsBound(conns: map<Addr, ConnectionData>, ids: seq<GameId>)
    requires forall i, j :: 0 <= i < j < |ids| ==> ids[i] != ids[j]
    ensures SumMemberSets(conns, ids) <= |conns|
    decreases |ids|
  {
    if ids != [] {
      var rest := Without(conns, ids[0]);
      forall k | 0 <= k < |ids[1..]|
        ensures MemberSet(rest, ids[1..][k]) == MemberSet(conns, ids[1..][k])
      {
        assert ids[1..][k] == ids[k + 1] != ids[0];
      }
      SumMemberSetsSame(rest, conns, ids[1..]);
      SumMemberSetsBound(rest, ids[1..]);
      assert conns.Keys == rest.Keys + MemberSet(conns, ids[0]);
      assert rest.Keys * MemberSet(conns, ids[0]) == {};
    }
  }

  lemma {:induction false} SumMemberSetsSame(a: map<Addr, ConnectionData>, b: map<Addr, ConnectionData>, ids: seq<GameId>)
    requires forall k :: 0 <= k < |ids| ==> MemberSet(a, ids[k]) == MemberSet(b, ids[k])
    ensures SumMemberSets(a, ids) == SumMemberSets(b, ids)
    decreases |ids|
  {
    if ids != [] {
      assert MemberSet(a, ids[0]) == MemberSet(b, ids[0]);
      forall k | 0 <= k < |ids[1..]| ensures MemberSet(a, ids[1..][k]) == MemberSet(b, ids[1..][k]) {
        assert ids[1..][k] == ids[k + 1];
      }
      SumMemberSetsSame(a, b, ids[1..]);
    }
  }

  lemma {:induction false} SumMembersAtMost(s: ServerData, addr: Addr, r: seq<GameSummary>)
    requires forall i :: 0 <= i < |r| ==>
               r[i].members == |MemberSet(s.connections, r[i].id)| % 0x1_0000_0000
    ensures SumMembers(r) <= SumMemberSets(s.connections, seq(|r|, i requires 0 <= i < |r| => r[i].id))
    decreases |r|
  {
    if r != [] {
      var ids := seq(|r|, i requires 0 <= i < |r| => r[i].id);
      var ids' := seq(|r[1..]|, i requires 0 <= i < |r[1..]| => r[1..][i].id);
      assert ids[1..] == ids';
      SumMembersAtMost(s, addr, r[1..]);
    }
  }

  /** Every connection is counted in at most one lobby line, so the member counts of a lobby
      add up to at most the number of connections. */
  lemma MembersWithinConnections(s: ServerData, addr: Addr)
    requires addr in s.connections || s.games == map[]
    ensures SumMembers(SummaryList(s, addr)) <= |s.connections|
  {
    var r := SummaryList(s, addr);
    var ids := seq(|r|, i requires 0 <= i < |r| => r[i].id);
    SummaryListSorted(s, addr);
    SummaryListCounts(s, addr);
    SumMembersAtMost(s, addr, r);
    forall i, j | 0 <= i < j < |ids| ensures ids[i] != ids[j] {
      assert r[i].id.id < r[j].id.id;
    }
    SumMemberSetsBound(s.connections, ids);
  }

  /** The lobby each connection of `s` is sent after a change of games or members. */
  function GameLists(s: ServerData): (out: Outbox)
    ensures out.Keys == s.connections.Keys
    ensures forall a :: a in out ==> out[a] == [GameList(SummaryList(s, a))]
  {
    map a | a in s.connections :: [GameList(SummaryList(s, a))]
  }

  /** What a client that creates or selects a game causes to be sent: `first` (the view
      of its game) to `addr`, then the lobby to every connection, `addr` included. */
  function AttachOutbox(s: ServerData, addr: Addr, first: ServerMessage): (out: Outbox)
    requires addr in s.connections
    ensures out.Keys == s.connections.Keys
    ensures out[addr] == [first, GameList(SummaryList(s, addr))]
    ensures forall a :: a in out && a != addr ==> out[a] == [GameList(SummaryList(s, a))]
  {
    GameLists(s)[addr := [first, GameList(SummaryList(s, addr))]]
  }

  /** The same `View` sent to every member of game `id`. */
  function ViewToMembers(s: ServerData, id: GameId, data: ReversiData): (out: Outbox)
    ensures out.Keys == MemberSet(s.connections, id)
    ensures forall a :: a in out ==> out[a] == [View(data)]
  {
    map a | a in MemberSet(s.connections, id) :: [View(data)]
  }

  /** `handle_sessionlist`: the requester alone receives the lobby; nothing changes. */
  function HandleSessionList(s: ServerData, addr: Addr): (h: Handled)
    requires addr in s.connections
    ensures h.state == s
    ensures h.outbox.Keys == {addr}
    ensures h.outbox[addr] == [GameList(SummaryList(s, addr))]
  {
    Handled(s, map[addr := [GameList(SummaryList(s, addr))]])
  }

  /** Attaching a connection to an existing game, in a table that keeps every old game,
      keeps every connection's game in the table. */
  lemma AttachKeepsValid(s: ServerData, addr: Addr, id: GameId, games: map<GameId, ReversiData>)
    requires s.games.Keys <= games.Keys && id in games
    ensures Valid(s) ==> Valid(ServerData(s.connections[addr := ConnectionData(Some(id))], games))
  {
  }

  /** `handle_creategame`: a fresh game under the first free id, the requester attached to
      it and sent its view, then every connection sent the new lobby. The `unwrap` of the
      new id panics when every id is taken, so that case is excluded. */
  method HandleCreateGame(s: ServerData, addr: Addr) returns (h: Handled)
    requires addr in s.connections
    requires !AllIdsTaken(s.games)
    ensures Valid(s) ==> Valid(h.state)
    ensures addr in h.state.connections && h.state.connections[addr].gameId.Some?
    ensures IsFirstFree(s.games, h.state.connections[addr].gameId.value)
    ensures h.state.games == s.games[h.state.connections[addr].gameId.value := CreateInitialData()]
    ensures h.state.connections.Keys == s.connections.Keys
    ensures forall a :: a in s.connections && a != addr ==>
              h.state.connections[a] == s.connections[a]
    ensures h.outbox == AttachOutbox(h.state, addr, View(CreateInitialData()))
  {
    var result, games' := AddNewGame(s.games);
    var id := result.value;
    var s' := ServerData(s.connections[addr := ConnectionData(Some(id))], games');
    AttachKeepsValid(s, addr, id, games');
    h := Handled(s', AttachOutbox(s', addr, View(CreateInitialData())));
  }

  /** `handle_selectgame`: the requester is attached to game `id` and sent its view, then
      every connection is sent the new lobby. The lookup of the game is unwrapped, so an
      unknown id is excluded. */
  function HandleSelectGame(s: ServerData, addr: Addr, id: GameId): (h: Handled)
    requires addr in s.connections && id in s.games
    ensures Valid(s) ==> Valid(h.state)
    ensures h.state.games == s.games
    ensures h.state.connections.Keys == s.connections.Keys
    ensures h.state.connections[addr].gameId == Some(id)
    ensures forall a :: a in s.connections && a != addr ==>
              h.state.connections[a] == s.connections[a]
    ensures h.outbox == AttachOutbox(h.state, addr, View(s.games[id]))
  {
    var s' := s.(connections := s.connections[addr := ConnectionData(Some(id))]);
    AttachKeepsValid(s, addr, id, s.games);
    Handled(s', AttachOutbox(s', addr, View(s.games[id])))
  }

  /** `handle_put`: the cursor of the requester's game moves to `pos` and the move step runs
      there; every member of that game, and nobody else, is sent the result. The requester's
      game id and the game are unwrapped, so both must exist. */
  function HandlePut(s: ServerData, addr: Addr, pos: Position): (h: Handled)
    requires addr in s.connections && s.connections[addr].gameId.Some?
    requires s.connections[addr].gameId.value in s.games
    ensures Valid(s) ==> Valid(h.state)
    ensures h.state.connections == s.connections
    ensures h.state.games.Keys == s.games.Keys
    ensures forall g :: g in s.games && g != s.connections[addr].gameId.value ==>
              h.state.games[g] == s.games[g]
    ensures var id := s.connections[addr].gameId.value;
            h.state.games[id] == TryPut(s.games[id].(cursor := pos))
    ensures h.outbox.Keys == MemberSet(s.connections, s.connections[addr].gameId.value)
    ensures addr in h.outbox
    ensures forall a :: a in h.outbox ==>
              h.outbox[a] == [View(h.state.games[s.connections[addr].gameId.value])]
  {
    var id := s.connections[addr].gameId.value;
    var moved := TryPut(s.games[id].(cursor := pos));
    var s' := s.(games := s.games[id := moved]);
    Handled(s', ViewToMembers(s', id, moved))
  }

  /** `handle_reset`: without a game nothing happens; otherwise the requester's game starts
      over and every member of it, and nobody else, is sent the fresh view. */
  function HandleReset(s: ServerData, addr: Addr): (h: Handled)
    requires addr in s.connections
    requires s.connections[addr].gameId.Some? ==> s.connections[addr].gameId.value in s.games
    ensures Valid(s) ==> Valid(h.state)
    ensures s.connections[addr].gameId.None? ==> h == Handled(s, map[])
    ensures h.state.connections == s.connections
    ensures h.state.games.Keys == s.games.Keys
    ensures s.connections[addr].gameId.Some? ==>
              h.state.games == s.games[s.connections[addr].gameId.value := CreateInitialData()]
    ensures s.connections[addr].gameId.Some? ==>
              h.outbox.Keys == MemberSet(s.connections, s.connections[addr].gameId.value)
    ensures addr in h.outbox <==> s.connections[addr].gameId.Some?
    ensures forall a :: a in h.outbox ==> h.outbox[a] == [View(CreateInitialData())]
  {
    match s.connections[addr].gameId
    case None => Handled(s, map[])
    case Some(id) =>
      var init := CreateInitialData();
      Handled(s.(games := s.games[id := init]), ViewToMembers(s, id, init))
  }

  /** What `handle_message` needs to avoid a panic: a known requester, a free id for a new
      game, an existing game to select, a game of the requester's own to put in, and for a
      reset an existing game if the requester names one. */
  predicate Accepts(s: ServerData, addr: Addr, msg: ClientMessage) {
    && addr in s.connections
    && match msg
       case SessionList => true
       case CreateGame => exists i :: 1 <= i < U32Max && GameId(i) !in s.games
       case SelectGame(id) => id in s.games
       case Put(_) =>
         s.connections[addr].gameId.Some? && s.connections[addr].gameId.value in s.games
       case Reset =>
         s.connections[addr].gameId.Some? ==> s.connections[addr].gameId.value in s.games
  }

  /** `handle_message`: dispatches to the handler of the message. Every handler keeps each
      connection's game in the table. */
  method HandleMessage(s: ServerData, addr: Addr, msg: ClientMessage) returns (h: Handled)
    requires Accepts(s, addr, msg)
    ensures Valid(s) ==> Valid(h.state)
    ensures h.state.connections.Keys == s.connections.Keys
    ensures s.games.Keys <= h.state.games.Keys
    ensures msg.SessionList? ==> h == HandleSessionList(s, addr)
    ensures msg.SelectGame? ==> h == HandleSelectGame(s, addr, msg.gameId)
    ensures msg.Put? ==> h == HandlePut(s, addr, msg.position)
    ensures msg.Reset? ==> h == HandleReset(s, addr)
    ensures msg.CreateGame? ==>
              && addr in h.state.connections && h.state.connections[addr].gameId.Some?
              && IsFirstFree(s.games, h.state.connections[addr].gameId.value)
              && h.state.games
                 == s.games[h.state.connections[addr].gameId.value := CreateInitialData()]
              && (forall a :: a in s.connections && a != addr ==>
                    h.state.connections[a] == s.connections[a])
              && h.outbox == AttachOutbox(h.state, addr, View(CreateInitialData()))
  {
    match msg
    case SessionList =>
      h := HandleSessionList(s, addr);
    case CreateGame =>
      h := HandleCreateGame(s, addr);
    case SelectGame(id) =>
      h := HandleSelectGame(s, addr, id);
    case Put(pos) =>
      h := HandlePut(s, addr, pos);
    case Reset =>
      h := HandleReset(s, addr);
  }

  /** The lobby of a game two connections are attached to reports two members. */
  lemma TwoMembersLobby(g: ReversiData)
    ensures
      var s := ServerData(map[1 := ConnectionData(Some(GameId(1))), 2 := ConnectionData(Some(GameId(1)))],
                          map[GameId(1) := g]);
      var r := SummaryList(s, 2);
      |r| == 1 && r[0].id == GameId(1) && r[0].members == 2 && r[0].your
  {
    var s := ServerData(map[1 := ConnectionData(Some(GameId(1))), 2 := ConnectionData(Some(GameId(1)))],
                        map[GameId(1) := g]);
    assert MemberSet(s.connections, GameId(1)) == {1, 2};
    assert s.games.Keys == {GameId(1)};
    SummaryListGames(s, 2);
    SummaryListCounts(s, 2);
  }

  /** Two clients meet in one game: with client 1 attached to game 1, client 2 selecting it
      attaches both, so the lobby then reports two members (`TwoMembersLobby`). */
  lemma SelectGameScenario(g: ReversiData)
    ensures
      var s := ServerData(map[1 := ConnectionData(Some(GameId(1))), 2 := ConnectionData(None)],
                          map[GameId(1) := g]);
      HandleSelectGame(s, 2, GameId(1)).state
        == ServerData(map[1 := ConnectionData(Some(GameId(1))), 2 := ConnectionData(Some(GameId(1)))],
                      map[GameId(1) := g])
  {
    var s := ServerData(map[1 := ConnectionData(Some(GameId(1))), 2 := ConnectionData(None)],
                        map[GameId(1) := g]);
    var s' := HandleSelectGame(s, 2, GameId(1)).state;
    assert s'.connections == map[1 := ConnectionData(Some(GameId(1))), 2 := ConnectionData(Some(GameId(1)))];
  }
}
