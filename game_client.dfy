/**
 * The browser side of the multiplayer game (`public/game.mjs`): the key
 * polling of `processInput`, and the socket handlers that keep the
 * client's own copies of `player`, `players` and `collectibles`.
 *
 * Key listeners, drawing and the animation loop are not modelled; the set
 * of held keys is a parameter, and what `processInput` sends is returned
 * as a list of move commands.
 */
module GameClient {
  import opened CollectibleRecord
  import opened GameEvents
  import opened GameServer
  import opened PlayerRules
  import opened Wrappers

  /** `PLAYER_SPEED`. */
  const PlayerSpeed: int := 5

  /** The four directions a client can ask for. */
  datatype Direction = Up | Down | Left | Right {
    /** The token sent as `direction`. */
    function Token(): string {
      match this
      case Up => "up"
      case Down => "down"
      case Left => "left"
      case Right => "right"
    }

    /** Position in the order `processInput` tests the directions. */
    function Order(): nat {
      match this
      case Up => 0
      case Down => 1
      case Left => 2
      case Right => 3
    }
  }

  /** One `socket.emit('move', { direction, speed })`. */
  datatype MoveCommand = MoveCommand(direction: Direction, speed: int) {
    /** The token on the wire is one the server's movement rule recognises. */
    function Wire(): (r: (string, int))
      ensures r.0 in Directions && r.1 == speed
    {
      (direction.Token(), speed)
    }
  }

  /** `keys[k]` is truthy: the key was pressed and has not been released since. */
  predicate Pressed(keys: map<string, bool>, k: string) {
    k in keys && keys[k]
  }

  /** The keys that ask for each direction: an arrow key or its WASD letter in either case. */
  predicate Held(keys: map<string, bool>, d: Direction) {
    match d
    case Up => Pressed(keys, "ArrowUp") || Pressed(keys, "w") || Pressed(keys, "W")
    case Down => Pressed(keys, "ArrowDown") || Pressed(keys, "s") || Pressed(keys, "S")
    case Left => Pressed(keys, "ArrowLeft") || Pressed(keys, "a") || Pressed(keys, "A")
    case Right => Pressed(keys, "ArrowRight") || Pressed(keys, "d") || Pressed(keys, "D")
  }

  /** `moves` is what `processInput` has emitted once it has tested every direction
      before position `upTo`: one move at player speed per held direction among them,
      in the order tested. */
  ghost predicate EmittedBefore(keys: map<string, bool>, moves: seq<MoveCommand>, upTo: nat) {
    && |moves| <= upTo
    && (forall k :: 0 <= k < |moves| ==> moves[k].speed == PlayerSpeed && moves[k].direction.Order() < upTo)
    && (forall k, m :: 0 <= k < m < |moves| ==> moves[k].direction.Order() < moves[m].direction.Order())
    && (forall d: Direction :: d.Order() < upTo ==>
          (Held(keys, d) <==> exists k :: 0 <= k < |moves| && moves[k].direction == d))
  }

  /** Testing direction `d` next, and emitting a move for it exactly when it is held,
      extends what has been emitted by one position. */
  lemma EmitStep(keys: map<string, bool>, before: seq<MoveCommand>, after: seq<MoveCommand>, d: Direction,
                 n: nat, next: nat)
    requires d.Order() == n && next == n + 1 && EmittedBefore(keys, before, n)
    requires after == if Held(keys, d) then before + [MoveCommand(d, PlayerSpeed)] else before
    ensures EmittedBefore(keys, after, next)
  {
    forall e: Direction | e.Order() < n + 1 && Held(keys, e)
      ensures exists k :: 0 <= k < |after| && after[k].direction == e
    {
      if e == d {
        assert after[|after| - 1].direction == e;
      } else {
        var k :| 0 <= k < |before| && before[k].direction == e;
        assert after[k] == before[k];
      }
    }
    forall e: Direction | e.Order() < n + 1 && exists k :: 0 <= k < |after| && after[k].direction == e
      ensures Held(keys, e)
    {
      var k :| 0 <= k < |after| && after[k].direction == e;
      if k < |before| {
        assert before[k] == after[k];
      }
    }
  }

  /** Once all four directions are tested, the emitted moves are the held directions. */
  lemma EmittedAll(keys: map<string, bool>, moves: seq<MoveCommand>)
    requires EmittedBefore(keys, moves, 4)
    ensures |moves| <= 4
    ensures forall k :: 0 <= k < |moves| ==> moves[k].speed == PlayerSpeed
    ensures forall k, m :: 0 <= k < m < |moves| ==> moves[k].direction.Order() < moves[m].direction.Order()
    ensures forall d: Direction :: Held(keys, d) <==> exists k :: 0 <= k < |moves| && moves[k].direction == d
  {
    assert forall d: Direction :: d.Order() < 4;
  }

  /** `processInput`: one move per held direction, in the order up, down, left, right,
      each at the player speed; nothing for a direction whose keys are all up. */
  method ProcessInput(keys: map<string, bool>) returns (moves: seq<MoveCommand>)
    ensures |moves| <= 4
    ensures forall k :: 0 <= k < |moves| ==> moves[k].speed == PlayerSpeed
    ensures forall k, m :: 0 <= k < m < |moves| ==> moves[k].direction.Order() < moves[m].direction.Order()
    ensures forall d: Direction :: Held(keys, d) <==> exists k :: 0 <= k < |moves| && moves[k].direction == d
  {
    moves := [];
    var before := moves;
    if Held(keys, Up) {
      moves := moves + [MoveCommand(Up, PlayerSpeed)];
    }
    EmitStep(keys, before, moves, Up, 0, 1);
    before := moves;
    if Held(keys, Down) {
      moves := moves + [MoveCommand(Down, PlayerSpeed)];
    }
    EmitStep(keys, before, moves, Down, 1, 2);
    before := moves;
    if Held(keys, Left) {
      moves := moves + [MoveCommand(Left, PlayerSpeed)];
    }
    EmitStep(keys, before, moves, Left, 2, 3);
    before := moves;
    if Held(keys, Right) {
      moves := moves + [MoveCommand(Right, PlayerSpeed)];
    }
    EmitStep(keys, before, moves, Right, 3, 4);
    EmittedAll(keys, moves);
  }

  /** `cs.filter(c => c.id !== id)`. */
  function Without(cs: seq<Collectible>, id: nat): (r: seq<Collectible>)
    ensures |r| <= |cs|
  {
    if |cs| == 0 then []
    else if cs[0].id == id then Without(cs[1..], id)
    else [cs[0]] + Without(cs[1..], id)
  }

  /** The filter keeps exactly the elements with another id. */
  lemma {:induction false} WithoutMembers(cs: seq<Collectible>, id: nat, c: Collectible)
    ensures c in Without(cs, id) <==> c in cs && c.id != id
    decreases |cs|
  {
    if |cs| > 0 {
      WithoutMembers(cs[1..], id, c);
      assert cs == [cs[0]] + cs[1..];
    }
  }

  /** Filtering distributes over concatenation, so it keeps the order of what it keeps. */
  lemma {:induction false} WithoutAppend(a: seq<Collectible>, b: seq<Collectible>, id: nat)
    ensures Without(a + b, id) == Without(a, id) + Without(b, id)
    decreases |a|
  {
    if |a| > 0 {
      WithoutAppend(a[1..], b, id);
      assert (a + b)[1..] == a[1..] + b;
      assert (a + b)[0] == a[0];
    } else {
      assert a + b == b;
    }
  }

  /** A list none of whose elements carries `id` is left as it is. */
  lemma {:induction false} WithoutAbsent(cs: seq<Collectible>, id: nat)
    requires forall k :: 0 <= k < |cs| ==> cs[k].id != id
    ensures Without(cs, id) == cs
    decreases |cs|
  {
    if |cs| > 0 {
      WithoutAbsent(cs[1..], id);
      assert cs == [cs[0]] + cs[1..];
    }
  }

  /** With distinct ids, filtering out the id of the element at `i` is splicing out index `i`. */
  lemma WithoutIsSplice(cs: seq<Collectible>, i: nat)
    requires i < |cs| && DistinctIds(cs)
    ensures Without(cs, cs[i].id) == cs[..i] + cs[i + 1..]
  {
    var id := cs[i].id;
    forall k | 0 <= k < i ensures cs[..i][k].id != id {
      assert cs[..i][k] == cs[k];
    }
    WithoutAbsent(cs[..i], id);
    var after := cs[i + 1..];
    forall k | 0 <= k < |after| ensures after[k].id != id {
      assert after[k] == cs[i + 1 + k];
    }
    WithoutAbsent(after, id);
    WithoutAroundOne(cs, i);
  }

  /** Filtering out the id at `i` from a list whose other elements carry other ids
      leaves the list without index `i`. */
  lemma WithoutAroundOne(cs: seq<Collectible>, i: nat)
    requires i < |cs|
    requires Without(cs[..i], cs[i].id) == cs[..i] && Without(cs[i + 1..], cs[i].id) == cs[i + 1..]
    ensures Without(cs, cs[i].id) == cs[..i] + cs[i + 1..]
  {
    var id := cs[i].id;
    var before, after := cs[..i], cs[i + 1..];
    assert Without([cs[i]] + after, id) == after by {
      WithoutAppend([cs[i]], after, id);
      assert Without([cs[i]], id) == [];
    }
    assert cs == before + ([cs[i]] + after);
    WithoutAppend(before, [cs[i]] + after, id);
  }

  /** The client's collectibles after a `collectibleCollected` event. */
  function AfterCollected(cs: seq<Collectible>, collectibleId: nat, newCollectible: Collectible): (r: seq<Collectible>)
    ensures 0 < |r| <= |cs| + 1 && r[|r| - 1] == newCollectible
  {
    Without(cs, collectibleId) + [newCollectible]
  }

  /** Before the pushed collectible come exactly the old ones with another id. */
  lemma AfterCollectedMembers(cs: seq<Collectible>, collectibleId: nat, newCollectible: Collectible, c: Collectible)
    ensures var r := AfterCollected(cs, collectibleId, newCollectible);
      c in r[..|r| - 1] <==> c in cs && c.id != collectibleId
  {
    var kept := Without(cs, collectibleId);
    assert (kept + [newCollectible])[..|kept|] == kept;
    WithoutMembers(cs, collectibleId, c);
  }

  /** The client's collectibles after receiving `events` in order; events other than
      `collectibleCollected` leave them alone. */
  function ReplayCollections(cs: seq<Collectible>, events: seq<Emission>): seq<Collectible>
    decreases |events|
  {
    if |events| == 0 then cs
    else
      var next := match events[0].event
        case CollectibleCollected(_, cid, nc, _) => AfterCollected(cs, cid, nc)
        case _ => cs;
      ReplayCollections(next, events[1..])
  }

  /** Replaying a `collectibleCollected` event applies `AfterCollected`, then the rest. */
  lemma ReplayOneCollection(cs: seq<Collectible>, playerId: string, collectibleId: nat, newCollectible: Collectible,
                            score: int, rest: seq<Emission>)
    ensures ReplayCollections(cs, [Emission(Everyone, CollectibleCollected(playerId, collectibleId, newCollectible, score))] + rest)
      == ReplayCollections(AfterCollected(cs, collectibleId, newCollectible), rest)
  {
    var events := [Emission(Everyone, CollectibleCollected(playerId, collectibleId, newCollectible, score))] + rest;
    assert events[1..] == rest;
  }

  /** On a hit at index `i`, the client's filter-and-push of the announced collection
      produces the server's splice, so replaying the announcement and then the events
      that bring the splice to `after` brings the client to `after` as well. */
  lemma ReplayHit(cs: seq<Collectible>, i: nat, spawned: Collectible, nextId: nat, playerId: string, score: int,
                  rest: seq<Emission>, after: seq<Collectible>)
    requires i < |cs| && CollectiblesOk(cs, nextId)
    requires ReplayCollections(Spliced(cs, i, spawned), rest) == after
    ensures ReplayCollections(cs, [Emission(Everyone, CollectibleCollected(playerId, cs[i].id, spawned, score))] + rest)
      == after
  {
    WithoutIsSplice(cs, i);
    assert AfterCollected(cs, cs[i].id, spawned) == Spliced(cs, i, spawned);
    ReplayOneCollection(cs, playerId, cs[i].id, spawned, score, rest);
  }

  /** The server's invariant survives the splice of a hit (the part of
      `SplicedKeepsInvariant` the replica argument needs). */
  lemma SplicedStaysOk(cs: seq<Collectible>, i: nat, spawned: Collectible, nextId: nat)
    requires i < |cs| && CollectiblesOk(cs, nextId)
    requires spawned.id == nextId && InSpawnRange(spawned)
    ensures CollectiblesOk(Spliced(cs, i, spawned), nextId + 1)
  {
    SplicedKeepsInvariant(cs, i, spawned, nextId);
  }

  /** A client that held the server's collectibles before a move and then receives the
      move's `collectibleCollected` events, in order, holds the server's collectibles after
      it. Filtering by id reproduces each splice because live ids are distinct, however
      many hits the collision pass makes and whichever elements it skips. */
  lemma {:induction false} ReplicaFollowsScan(sender: string, px: int, py: int, cs: seq<Collectible>, i: nat, n: nat,
                                              score: int, nextId: nat, rolls: nat -> Draw)
    requires CollectiblesOk(cs, nextId)
    ensures ReplayCollections(cs, Scan(sender, px, py, cs, i, n, score, nextId, rolls).events)
      == Scan(sender, px, py, cs, i, n, score, nextId, rolls).collectibles
    decreases n - i, 1
  {
    if i < n {
      if i < |cs| && HitBox(px, py, 30, 30, cs[i]) {
        ReplicaFollowsHit(sender, px, py, cs, i, n, score, nextId, rolls);
      } else {
        ReplicaFollowsScan(sender, px, py, cs, i + 1, n, score, nextId, rolls);
      }
    } else {
      assert Scan(sender, px, py, cs, i, n, score, nextId, rolls).events == [];
    }
  }

  /** The step of `ReplicaFollowsScan` at an index whose collectible the mover overlaps. */
  lemma {:induction false} ReplicaFollowsHit(sender: string, px: int, py: int, cs: seq<Collectible>, i: nat, n: nat,
                                             score: int, nextId: nat, rolls: nat -> Draw)
    requires CollectiblesOk(cs, nextId)
    requires i < n && i < |cs| && HitBox(px, py, 30, 30, cs[i])
    ensures ReplayCollections(cs, Scan(sender, px, py, cs, i, n, score, nextId, rolls).events)
      == Scan(sender, px, py, cs, i, n, score, nextId, rolls).collectibles
    decreases n - i, 0
  {
    var spawned := Spawned(nextId, rolls(nextId));
    var cs' := Spliced(cs, i, spawned);
    SplicedStaysOk(cs, i, spawned, nextId);
    ReplicaFollowsScan(sender, px, py, cs', i + 1, n, score + cs[i].value, nextId + 1, rolls);
    var rest := Scan(sender, px, py, cs', i + 1, n, score + cs[i].value, nextId + 1, rolls);
    var r := Scan(sender, px, py, cs, i, n, score, nextId, rolls);
    assert r.events == [Emission(Everyone, CollectibleCollected(sender, cs[i].id, spawned, score + cs[i].value))]
                       + rest.events;
    assert r.collectibles == rest.collectibles;
    ReplayHit(cs, i, spawned, nextId, sender, score + cs[i].value, rest.events, rest.collectibles);
  }

  /** The client's mirror of the game state. `player` is `undefined` until `init` arrives. */
  class Client {
    var player: Option<PlayerInfo>
    var players: map<string, PlayerInfo>
    var collectibles: seq<Collectible>

    /** The module's initial state: no player, no players, no collectibles. */
    constructor ()
      ensures player == None && players == map[] && collectibles == []
    {
      player := None;
      players := map[];
      collectibles := [];
    }

    /** `init`: replace all three wholesale with the payload. */
    method Init(p: PlayerInfo, ps: map<string, PlayerInfo>, cs: seq<Collectible>)
      modifies this
      ensures player == Some(p) && players == ps && collectibles == cs
    {
      player := Some(p);
      players := ps;
      collectibles := cs;
    }

    /** `playerJoined`: file the new player under its id; other entries stay. */
    method PlayerJoined(newPlayer: PlayerInfo)
      modifies this`players
      ensures players == old(players)[newPlayer.id := newPlayer]
    {
      players := players[newPlayer.id := newPlayer];
    }

    /** `playerMoved`: overwrite position and score of a known player; unknown ids are ignored. */
    method PlayerMoved(id: string, x: int, y: int, score: int)
      modifies this`players
      ensures id in old(players) ==> players == old(players)[id := old(players)[id].(x := x, y := y, score := score)]
      ensures id !in old(players) ==> players == old(players)
    {
      if id in players {
        players := players[id := players[id].(x := x, y := y, score := score)];
      }
    }

    /** `collectibleCollected`: set the collector's score if it is known, drop the
        collected id and append the replacement. */
    method CollectibleCollected(playerId: string, collectibleId: nat, newCollectible: Collectible, score: int)
      modifies this`players, this`collectibles
      ensures playerId in old(players) ==> players == old(players)[playerId := old(players)[playerId].(score := score)]
      ensures playerId !in old(players) ==> players == old(players)
      ensures collectibles == AfterCollected(old(collectibles), collectibleId, newCollectible)
    {
      if playerId in players {
        players := players[playerId := players[playerId].(score := score)];
      }
      collectibles := Without(collectibles, collectibleId);
      collectibles := collectibles + [newCollectible];
    }

    /** `playerLeft`: delete only that key. */
    method PlayerLeft(playerId: string)
      modifies this`players
      ensures players == old(players) - {playerId}
    {
      players := players - {playerId};
    }
  }
}
