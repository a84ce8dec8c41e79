/**
 * The payloads of the game's real-time channel as the server emits them and
 * the client receives them (`server.js` lines 112-160, `public/game.mjs`
 * lines 84-116). A player travels as a plain record; socket.io delivery is
 * reduced to naming who an emission is addressed to.
 */
module GameEvents {
  import opened CollectibleRecord

  /** A player as serialised onto the channel. */
  datatype PlayerInfo = PlayerInfo(x: int, y: int, score: int, id: string)

  datatype GameEvent =
    | Init(player: PlayerInfo, players: map<string, PlayerInfo>, collectibles: seq<Collectible>)
    | PlayerJoined(joined: PlayerInfo)
    | PlayerMoved(id: string, x: int, y: int, score: int)
    | CollectibleCollected(playerId: string, collectibleId: nat, newCollectible: Collectible, score: int)
    | PlayerLeft(id: string)

  /** `socket.emit` (the sender only), `socket.broadcast.emit` (everyone else), `io.emit` (everyone). */
  datatype Audience = Sender | Others | Everyone

  datatype Emission = Emission(to: Audience, event: GameEvent)
}
