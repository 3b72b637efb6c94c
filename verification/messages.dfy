/** The message vocabulary shared by the server and its clients
    (reversi_message/src/lib.rs). Serialization is not modelled: only the shapes. */
module Messages {
  import opened Board
  import opened Session

  /** Rust's `u32`. */
  type U32 = x: int | 0 <= x < 0x1_0000_0000

  /** `GameID(pub u32)`, ordered by its number (the derived `Ord`). */
  datatype GameId = GameId(id: U32)

  /** What a client asks of the server. */
  datatype ClientMessage =
    | SessionList
    | CreateGame
    | SelectGame(gameId: GameId)
    | Put(position: Position)
    | Reset

  /** One line of the lobby: a game, how many connections watch it, and whether the
      recipient is one of them. */
  datatype GameSummary = GameSummary(id: GameId, members: U32, your: bool)

  /** What the server pushes to a client: the lobby, or the state of the client's game. */
  datatype ServerMessage =
    | GameList(summaries: seq<GameSummary>)
    | View(data: ReversiData)
}
