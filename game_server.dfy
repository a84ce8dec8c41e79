/**
 * The authoritative registry of the multiplayer game (`server.js`): the
 * `players` map from socket id to Player object, the `collectibles` array,
 * the `collectibleId` counter, `createCollectible`, the start-up loop and
 * the `connection`, `move` and `disconnect` handlers.
 *
 * `Math.random()` becomes parameters of type `Unit`. The draws that
 * `createCollectible` makes are taken from `rolls`, indexed by the id of
 * the collectible being created, so the handlers stay deterministic
 * functions of their inputs. What each handler emits is returned as a list
 * of emissions.
 */
module GameServer {
  import opened CollectibleRecord
  import opened PlayerRules
  import opened GameEvents

  /** A value `Math.random()` can return. */
  type Unit = r: real | 0.0 <= r < 1.0 witness 0.0

  /** The three draws of one `createCollectible` call: for x, for y, for value. */
  datatype Draw = Draw(forX: Unit, forY: Unit, forValue: Unit)

  /** `Math.floor(r * n) + offset`. */
  function Scale(r: Unit, n: nat, offset: int): (v: int)
    requires n > 0
    ensures offset <= v < offset + n
  {
    assert r * (n as real) < n as real;
    (r * (n as real)).Floor + offset
  }

  /** The collectible `createCollectible` builds from one draw and the counter's value. */
  function Spawned(id: nat, d: Draw): (c: Collectible)
    ensures 50 <= c.x <= 749 && 50 <= c.y <= 549 && 1 <= c.value <= 10 && c.id == id
  {
    Collectible(Scale(d.forX, 700, 50), Scale(d.forY, 500, 50), Scale(d.forValue, 10, 1), id)
  }

  /** A player as the server serialises it. */
  function Serialize(p: Player): PlayerInfo
    reads p
  {
    PlayerInfo(p.x, p.y, p.score, p.id)
  }

  ghost predicate DistinctIds(cs: seq<Collectible>) {
    forall i, j :: 0 <= i < j < |cs| ==> cs[i].id != cs[j].id
  }

  ghost predicate IdsBelow(cs: seq<Collectible>, n: nat) {
    forall i :: 0 <= i < |cs| ==> cs[i].id < n
  }

  /** Where `createCollectible` can put a collectible, and what it can be worth. */
  ghost predicate InSpawnRange(c: Collectible) {
    50 <= c.x <= 749 && 50 <= c.y <= 549 && 1 <= c.value <= 10
  }

  ghost predicate AllInSpawnRange(cs: seq<Collectible>) {
    forall i :: 0 <= i < |cs| ==> InSpawnRange(cs[i])
  }

  function SumValues(cs: seq<Collectible>): int {
    if |cs| == 0 then 0 else cs[0].value + SumValues(cs[1..])
  }

  /** What a collision pass leaves behind. `taken` lists the collectibles removed, in order. */
  datatype ScanResult = ScanResult(
    collectibles: seq<Collectible>, score: int, nextId: nat,
    taken: seq<Collectible>, events: seq<Emission>)

  /** The array after the hit at index `i`: `splice(i, 1)` followed by `push(spawned)`. */
  function Spliced(cs: seq<Collectible>, i: nat, spawned: Collectible): (r: seq<Collectible>)
    requires i < |cs|
    ensures |r| == |cs| && r[|r| - 1] == spawned
    ensures forall k :: 0 <= k < |r| - 1 ==> r[k] == cs[if k < i then k else k + 1]
  {
    cs[..i] + cs[i + 1..] + [spawned]
  }

  /**
   * The `collectibles.forEach` pass of the move handler from index `i` on, for a
   * mover at `(px, py)`. As ECMAScript specifies `forEach`, the number of indices
   * visited, `n`, is fixed when the pass starts, an index is skipped when it is no
   * longer present, and each element is read from the array as it is at that moment.
   * A hit adds the value to the score, splices the element out, appends a new
   * collectible and announces the collection to everyone. Each visited index yields at
   * most one collection.
   */
  function Scan(sender: string, px: int, py: int, cs: seq<Collectible>, i: nat, n: nat,
                score: int, nextId: nat, rolls: nat -> Draw): (r: ScanResult)
    ensures |r.taken| <= if i < n then n - i else 0
    decreases n - i
  {
    if i >= n then ScanResult(cs, score, nextId, [], [])
    else if i < |cs| && HitBox(px, py, 30, 30, cs[i]) then
      var c := cs[i];
      var spawned := Spawned(nextId, rolls(nextId));
      var newScore := score + c.value;
      var rest := Scan(sender, px, py, Spliced(cs, i, spawned), i + 1, n, newScore, nextId + 1, rolls);
      rest.(taken := [c] + rest.taken,
            events := [Emission(Everyone, CollectibleCollected(sender, c.id, spawned, newScore))] + rest.events)
    else
      Scan(sender, px, py, cs, i + 1, n, score, nextId, rolls)
  }

  /** One step of the pass at an index whose collectible the mover overlaps: the pass
      goes on from `i + 1` over the spliced list, with the score and counter raised. */
  lemma ScanHitStep(sender: string, px: int, py: int, cs: seq<Collectible>, i: nat, n: nat,
                    score: int, nextId: nat, rolls: nat -> Draw,
                    spawned: Collectible, cs': seq<Collectible>, score': int, nextId': nat)
    requires i < n && i < |cs| && HitBox(px, py, 30, 30, cs[i])
    requires spawned == Spawned(nextId, rolls(nextId)) && cs' == Spliced(cs, i, spawned)
    requires score' == score + cs[i].value && nextId' == nextId + 1
    ensures var r := Scan(sender, px, py, cs, i, n, score, nextId, rolls);
      var rest := Scan(sender, px, py, cs', i + 1, n, score', nextId', rolls);
      && r.collectibles == rest.collectibles && r.score == rest.score && r.nextId == rest.nextId
      && r.events == [Emission(Everyone, CollectibleCollected(sender, cs[i].id, spawned, score'))] + rest.events
  {
  }

  /** One step of the pass at an index it skips or whose collectible the mover misses. */
  lemma ScanMissStep(sender: string, px: int, py: int, cs: seq<Collectible>, i: nat, n: nat,
                     score: int, nextId: nat, rolls: nat -> Draw)
    requires i < n && !(i < |cs| && HitBox(px, py, 30, 30, cs[i]))
    ensures Scan(sender, px, py, cs, i, n, score, nextId, rolls) == Scan(sender, px, py, cs, i + 1, n, score, nextId, rolls)
  {
  }

  /** A pass keeps the number of collectibles, uses one new id per collection, and
      announces each collection once. */
  lemma {:induction false} ScanKeepsCount(sender: string, px: int, py: int, cs: seq<Collectible>, i: nat, n: nat,
                                          score: int, nextId: nat, rolls: nat -> Draw)
    ensures var r := Scan(sender, px, py, cs, i, n, score, nextId, rolls);
      |r.collectibles| == |cs| && r.nextId == nextId + |r.taken| && |r.events| == |r.taken|
    decreases n - i
  {
    if i < n {
      if i < |cs| && HitBox(px, py, 30, 30, cs[i]) {
        ScanKeepsCount(sender, px, py, Spliced(cs, i, Spawned(nextId, rolls(nextId))), i + 1, n,
                       score + cs[i].value, nextId + 1, rolls);
      } else {
        ScanKeepsCount(sender, px, py, cs, i + 1, n, score, nextId, rolls);
      }
    }
  }

  /** The score rises by exactly the values of the collectibles taken, and every
      collectible taken overlapped the mover. */
  lemma {:induction false} ScanScoresTaken(sender: string, px: int, py: int, cs: seq<Collectible>, i: nat, n: nat,
                                           score: int, nextId: nat, rolls: nat -> Draw)
    ensures var r := Scan(sender, px, py, cs, i, n, score, nextId, rolls);
      r.score == score + SumValues(r.taken)
      && forall k :: 0 <= k < |r.taken| ==> HitBox(px, py, 30, 30, r.taken[k])
    decreases n - i
  {
    if i < n {
      if i < |cs| && HitBox(px, py, 30, 30, cs[i]) {
        var cs' := Spliced(cs, i, Spawned(nextId, rolls(nextId)));
        var rest := Scan(sender, px, py, cs', i + 1, n, score + cs[i].value, nextId + 1, rolls);
        ScanScoresTaken(sender, px, py, cs', i + 1, n, score + cs[i].value, nextId + 1, rolls);
        assert ([cs[i]] + rest.taken)[1..] == rest.taken;
      } else {
        ScanScoresTaken(sender, px, py, cs, i + 1, n, score, nextId, rolls);
      }
    }
  }

  /** Some collectible of `cs` carries `id`. */
  ghost predicate HasId(cs: seq<Collectible>, id: nat) {
    exists j :: 0 <= j < |cs| && cs[j].id == id
  }

  /** The invariant the server keeps over its collectibles and counter. */
  ghost predicate CollectiblesOk(cs: seq<Collectible>, nextId: nat) {
    DistinctIds(cs) && IdsBelow(cs, nextId) && AllInSpawnRange(cs)
  }

  /** A splice with a new collectible under the counter's id keeps the invariant (with the
      counter incremented), drops the spliced id, and brings in no id but the new one. */
  lemma SplicedKeepsInvariant(cs: seq<Collectible>, i: nat, spawned: Collectible, nextId: nat)
    requires i < |cs| && CollectiblesOk(cs, nextId)
    requires spawned.id == nextId && InSpawnRange(spawned)
    ensures var r := Spliced(cs, i, spawned);
      && CollectiblesOk(r, nextId + 1)
      && !HasId(r, cs[i].id)
      && forall id: nat :: HasId(r, id) ==> HasId(cs, id) || id == nextId
  {
    var r := Spliced(cs, i, spawned);
    forall id: nat | HasId(r, id) ensures HasId(cs, id) || id == nextId {
      var j :| 0 <= j < |r| && r[j].id == id;
      if j < |r| - 1 {
        var m := if j < i then j else j + 1;
        assert cs[m].id == id;
      }
    }
    forall j | 0 <= j < |r| ensures r[j].id != cs[i].id {
      if j < |r| - 1 {
        var m := if j < i then j else j + 1;
        assert r[j] == cs[m] && m != i;
      }
    }
  }

  /** Splicing one element out keeps the invariant. */
  lemma RemovalKeepsInvariant(cs: seq<Collectible>, i: nat, nextId: nat)
    requires i < |cs| && CollectiblesOk(cs, nextId)
    ensures CollectiblesOk(cs[..i] + cs[i + 1..], nextId)
  {
    var r := cs[..i] + cs[i + 1..];
    forall k | 0 <= k < |r| ensures r[k] == cs[if k < i then k else k + 1] {
    }
  }

  /** A pass keeps the invariant, and the counter never goes down. */
  lemma {:induction false} ScanKeepsInvariant(sender: string, px: int, py: int, cs: seq<Collectible>, i: nat, n: nat,
                                              score: int, nextId: nat, rolls: nat -> Draw)
    requires CollectiblesOk(cs, nextId)
    ensures var r := Scan(sender, px, py, cs, i, n, score, nextId, rolls);
      CollectiblesOk(r.collectibles, r.nextId) && nextId <= r.nextId
    decreases n - i
  {
    if i < n {
      if i < |cs| && HitBox(px, py, 30, 30, cs[i]) {
        var spawned := Spawned(nextId, rolls(nextId));
        SplicedKeepsInvariant(cs, i, spawned, nextId);
        ScanKeepsInvariant(sender, px, py, Spliced(cs, i, spawned), i + 1, n, score + cs[i].value, nextId + 1, rolls);
      } else {
        ScanKeepsInvariant(sender, px, py, cs, i + 1, n, score, nextId, rolls);
      }
    }
  }

  /** Every id present after a pass was present before it or was issued during it. */
  lemma {:induction false} ScanIdOrigin(sender: string, px: int, py: int, cs: seq<Collectible>, i: nat, n: nat,
                                        score: int, nextId: nat, rolls: nat -> Draw)
    requires CollectiblesOk(cs, nextId)
    ensures var r := Scan(sender, px, py, cs, i, n, score, nextId, rolls);
      forall id: nat :: HasId(r.collectibles, id) ==> HasId(cs, id) || nextId <= id < r.nextId
    decreases n - i
  {
    if i < n {
      if i < |cs| && HitBox(px, py, 30, 30, cs[i]) {
        var spawned := Spawned(nextId, rolls(nextId));
        var cs' := Spliced(cs, i, spawned);
        SplicedKeepsInvariant(cs, i, spawned, nextId);
        ScanIdOrigin(sender, px, py, cs', i + 1, n, score + cs[i].value, nextId + 1, rolls);
        ScanKeepsInvariant(sender, px, py, cs', i + 1, n, score + cs[i].value, nextId + 1, rolls);
        var r := Scan(sender, px, py, cs', i + 1, n, score + cs[i].value, nextId + 1, rolls);
        forall id: nat | HasId(r.collectibles, id) ensures HasId(cs, id) || nextId <= id < r.nextId {
          assert HasId(cs', id) || nextId + 1 <= id < r.nextId;
        }
      } else {
        ScanIdOrigin(sender, px, py, cs, i + 1, n, score, nextId, rolls);
        assert Scan(sender, px, py, cs, i, n, score, nextId, rolls) == Scan(sender, px, py, cs, i + 1, n, score, nextId, rolls);
      }
    }
  }

  /** No collectible taken during a pass is still present after it. */
  lemma {:induction false} ScanTakenGone(sender: string, px: int, py: int, cs: seq<Collectible>, i: nat, n: nat,
                                         score: int, nextId: nat, rolls: nat -> Draw)
    requires CollectiblesOk(cs, nextId)
    ensures var r := Scan(sender, px, py, cs, i, n, score, nextId, rolls);
      forall t :: 0 <= t < |r.taken| ==> !HasId(r.collectibles, r.taken[t].id)
    decreases n - i
  {
    if i < n {
      if i < |cs| && HitBox(px, py, 30, 30, cs[i]) {
        var spawned := Spawned(nextId, rolls(nextId));
        var cs' := Spliced(cs, i, spawned);
        SplicedKeepsInvariant(cs, i, spawned, nextId);
        ScanTakenGone(sender, px, py, cs', i + 1, n, score + cs[i].value, nextId + 1, rolls);
        ScanIdOrigin(sender, px, py, cs', i + 1, n, score + cs[i].value, nextId + 1, rolls);
        var rest := Scan(sender, px, py, cs', i + 1, n, score + cs[i].value, nextId + 1, rolls);
        forall t | 0 <= t < |rest.taken| + 1 ensures !HasId(rest.collectibles, ([cs[i]] + rest.taken)[t].id) {
          if t > 0 {
            assert ([cs[i]] + rest.taken)[t] == rest.taken[t - 1];
          } else {
            assert cs[i].id < nextId && !HasId(cs', cs[i].id);
          }
        }
        var r := Scan(sender, px, py, cs, i, n, score, nextId, rolls);
        assert r.taken == [cs[i]] + rest.taken && r.collectibles == rest.collectibles;
      } else {
        ScanTakenGone(sender, px, py, cs, i + 1, n, score, nextId, rolls);
        assert var r := Scan(sender, px, py, cs, i + 1, n, score, nextId, rolls);
          forall t :: 0 <= t < |r.taken| ==> !HasId(r.collectibles, r.taken[t].id);
      }
    }
  }

  /** Collectibles in the spawn range are worth at least 1 each. */
  lemma {:induction false} SumValuesAtLeastCount(cs: seq<Collectible>)
    requires AllInSpawnRange(cs)
    ensures SumValues(cs) >= |cs|
  {
    if |cs| > 0 {
      assert InSpawnRange(cs[0]);
      assert AllInSpawnRange(cs[1..]) by {
        forall k | 0 <= k < |cs| - 1 ensures InSpawnRange(cs[1..][k]) {
          assert cs[1..][k] == cs[k + 1];
        }
      }
      SumValuesAtLeastCount(cs[1..]);
    }
  }

  /** A pass only takes collectibles that lie in the spawn range. */
  lemma {:induction false} ScanTakenInRange(sender: string, px: int, py: int, cs: seq<Collectible>, i: nat, n: nat,
                                            score: int, nextId: nat, rolls: nat -> Draw)
    requires AllInSpawnRange(cs)
    ensures var r := Scan(sender, px, py, cs, i, n, score, nextId, rolls);
      AllInSpawnRange(r.taken)
    decreases n - i
  {
    if i < n {
      if i < |cs| && HitBox(px, py, 30, 30, cs[i]) {
        var cs' := Spliced(cs, i, Spawned(nextId, rolls(nextId)));
        assert AllInSpawnRange(cs') by {
          forall k | 0 <= k < |cs'| - 1 ensures InSpawnRange(cs'[k]) {
            assert cs'[k] == cs[if k < i then k else k + 1];
          }
        }
        ScanTakenInRange(sender, px, py, cs', i + 1, n, score + cs[i].value, nextId + 1, rolls);
        var rest := Scan(sender, px, py, cs', i + 1, n, score + cs[i].value, nextId + 1, rolls);
        forall k | 0 <= k < |rest.taken| + 1 ensures InSpawnRange(([cs[i]] + rest.taken)[k]) {
          if k > 0 {
            assert ([cs[i]] + rest.taken)[k] == rest.taken[k - 1];
          }
        }
      } else {
        ScanTakenInRange(sender, px, py, cs, i + 1, n, score, nextId, rolls);
      }
    }
  }

  /** A pass never lowers the score: it rises by at least one per collection. */
  lemma ScanScoreNeverDecreases(sender: string, px: int, py: int, cs: seq<Collectible>, i: nat, n: nat,
                                score: int, nextId: nat, rolls: nat -> Draw)
    requires AllInSpawnRange(cs)
    ensures var r := Scan(sender, px, py, cs, i, n, score, nextId, rolls);
      r.score >= score + |r.taken|
  {
    ScanTakenInRange(sender, px, py, cs, i, n, score, nextId, rolls);
    ScanScoresTaken(sender, px, py, cs, i, n, score, nextId, rolls);
    var r := Scan(sender, px, py, cs, i, n, score, nextId, rolls);
    SumValuesAtLeastCount(r.taken);
  }

  /** A pass from index `i` never changes the elements in front of `i`. */
  lemma {:induction false} ScanKeepsPrefix(sender: string, px: int, py: int, cs: seq<Collectible>, i: nat, n: nat,
                                           score: int, nextId: nat, rolls: nat -> Draw)
    ensures var r := Scan(sender, px, py, cs, i, n, score, nextId, rolls);
      |r.collectibles| == |cs| && forall k :: 0 <= k < i && k < |cs| ==> r.collectibles[k] == cs[k]
    decreases n - i
  {
    ScanKeepsCount(sender, px, py, cs, i, n, score, nextId, rolls);
    if i < n {
      if i < |cs| && HitBox(px, py, 30, 30, cs[i]) {
        var cs' := Spliced(cs, i, Spawned(nextId, rolls(nextId)));
        ScanKeepsPrefix(sender, px, py, cs', i + 1, n, score + cs[i].value, nextId + 1, rolls);
      } else {
        ScanKeepsPrefix(sender, px, py, cs, i + 1, n, score, nextId, rolls);
      }
    }
  }

  /** After a hit at index `i`, the element that slides into `i` is never examined by
      that pass: it is still at index `i` when the pass ends, whether it overlaps the mover or not. */
  lemma ShiftedElementIsSkipped(sender: string, px: int, py: int, cs: seq<Collectible>, i: nat, n: nat,
                                score: int, nextId: nat, rolls: nat -> Draw)
    requires i < n && i + 1 < |cs| && HitBox(px, py, 30, 30, cs[i])
    ensures var r := Scan(sender, px, py, cs, i, n, score, nextId, rolls);
      |r.collectibles| == |cs| && r.collectibles[i] == cs[i + 1]
  {
    var cs' := Spliced(cs, i, Spawned(nextId, rolls(nextId)));
    ScanKeepsPrefix(sender, px, py, cs', i + 1, n, score + cs[i].value, nextId + 1, rolls);
  }

  /** Two overlapping collectibles side by side: the pass takes the first and leaves the
      second, although the mover overlaps it too. */
  lemma SkippedNeighbourExample()
    ensures var a := Collectible(100, 100, 3, 0);
      var b := Collectible(105, 100, 4, 1);
      var r := Scan("p", 100, 100, [a, b], 0, 2, 0, 2, k => Draw(0.0, 0.0, 0.0));
      HitBox(100, 100, 30, 30, b) && r.taken == [a] && r.collectibles == [b, Collectible(50, 50, 1, 2)]
      && r.score == 3
  {
    var a := Collectible(100, 100, 3, 0);
    var b := Collectible(105, 100, 4, 1);
    var rolls: nat -> Draw := k => Draw(0.0, 0.0, 0.0);
    assert Spawned(2, rolls(2)) == Collectible(50, 50, 1, 2);
    assert Spliced([a, b], 0, Collectible(50, 50, 1, 2)) == [b, Collectible(50, 50, 1, 2)];
  }

  /** The replacement appended at the end is visited later in the same pass, so a move can
      collect a collectible spawned by that very move. */
  lemma ReplacementCollectedInSamePassExample()
    ensures var a := Collectible(50, 50, 2, 0);
      var far := Collectible(700, 500, 5, 1);
      var r := Scan("p", 50, 50, [a, far], 0, 2, 0, 2, k => Draw(0.0, 0.0, 0.0));
      r.taken == [a, Collectible(50, 50, 1, 2)] && r.score == 3
      && r.collectibles == [far, Collectible(50, 50, 1, 3)]
  {
    var a := Collectible(50, 50, 2, 0);
    var far := Collectible(700, 500, 5, 1);
    var rolls: nat -> Draw := k => Draw(0.0, 0.0, 0.0);
    assert Spawned(2, rolls(2)) == Collectible(50, 50, 1, 2);
    assert Spawned(3, rolls(3)) == Collectible(50, 50, 1, 3);
    assert Spliced([a, far], 0, Collectible(50, 50, 1, 2)) == [far, Collectible(50, 50, 1, 2)];
    var cs1 := [far, Collectible(50, 50, 1, 2)];
    assert Spliced(cs1, 1, Collectible(50, 50, 1, 3)) == [far, Collectible(50, 50, 1, 3)];
  }

  class Server {
    var players: map<string, Player>
    var collectibles: seq<Collectible>
    var collectibleId: nat

    /** Every player is filed under its own id; collectible ids are distinct and below
        the counter; every collectible lies in the spawn range. */
    ghost predicate Valid()
      reads this
    {
      && (forall k :: k in players ==> players[k].id == k)
      && CollectiblesOk(collectibles, collectibleId)
    }

    /** Module start-up: empty registry, then five calls of `createCollectible`. */
    constructor (rolls: nat -> Draw)
      ensures Valid()
      ensures players == map[] && collectibleId == 5
      ensures collectibles == seq(5, k requires 0 <= k < 5 => Spawned(k, rolls(k)))
    {
      players := map[];
      collectibles := [];
      collectibleId := 0;
      new;
      var i := 0;
      while i < 5
        invariant 0 <= i <= 5 && collectibleId == i && players == map[]
        invariant collectibles == seq(i, k requires 0 <= k < i => Spawned(k, rolls(k)))
        invariant Valid()
      {
        var _ := CreateCollectible(rolls(collectibleId));
        i := i + 1;
      }
    }

    /** `createCollectible`: append one collectible carrying the counter's value, then
        increment the counter. */
    method CreateCollectible(d: Draw) returns (c: Collectible)
      requires Valid()
      modifies this
      ensures Valid()
      ensures c == Spawned(old(collectibleId), d)
      ensures collectibles == old(collectibles) + [c]
      ensures collectibleId == old(collectibleId) + 1
      ensures players == old(players)
    {
      c := Spawned(collectibleId, d);
      collectibleId := collectibleId + 1;
      collectibles := collectibles + [c];
    }

    /** The `connection` handler: file a spawned score-0 player under the socket id at a
        random spawn point, send it the whole state, and announce it to everyone else. */
    method Connect(socketId: string, rx: Unit, ry: Unit) returns (p: Player, out: seq<Emission>)
      requires Valid()
      modifies this
      ensures Valid() && fresh(p)
      ensures p.id == socketId && p.score == 0
      ensures p.x == Scale(rx, 700, 50) && p.y == Scale(ry, 500, 50)
      ensures 50 <= p.x <= 749 && 50 <= p.y <= 549
      ensures players == old(players)[socketId := p]
      ensures collectibles == old(collectibles) && collectibleId == old(collectibleId)
      ensures out == [
        Emission(Sender, Init(Serialize(p), map k | k in players :: Serialize(players[k]), collectibles)),
        Emission(Others, PlayerJoined(Serialize(p)))]
    {
      p := new Player(Scale(rx, 700, 50), Scale(ry, 500, 50), 0, socketId);
      players := players[socketId := p];
      var snapshot := map k | k in players :: Serialize(players[k]);
      out := [Emission(Sender, Init(Serialize(p), snapshot, collectibles)),
              Emission(Others, PlayerJoined(Serialize(p)))];
    }

    /** The `move` handler. A move from an unknown socket changes nothing. Otherwise the
        mover's position moves, the collision pass runs as `Scan` describes, and the new
        position and score are announced to everyone else. */
    method Move(socketId: string, dir: string, speed: int, rolls: nat -> Draw) returns (out: seq<Emission>)
      requires Valid()
      modifies this, if socketId in players then {players[socketId]} else {}
      ensures Valid()
      ensures players == old(players)
      ensures socketId !in players ==>
        collectibles == old(collectibles) && collectibleId == old(collectibleId) && out == []
      ensures socketId in players ==>
        var p := players[socketId];
        && (p.x, p.y) == Moved(old(p.x), old(p.y), dir, speed)
        && var r := Scan(socketId, p.x, p.y, old(collectibles), 0, |old(collectibles)|,
                         old(p.score), old(collectibleId), rolls);
        && collectibles == r.collectibles && p.score == r.score && collectibleId == r.nextId
        && out == r.events + [Emission(Others, PlayerMoved(socketId, p.x, p.y, p.score))]
    {
      out := [];
      if socketId in players {
        var p := players[socketId];
        p.MovePlayer(dir, speed);
        ghost var px, py := p.x, p.y;
        var n := |collectibles|;
        ghost var total := Scan(socketId, px, py, collectibles, 0, n, p.score, collectibleId, rolls);
        ScanKeepsCount(socketId, px, py, collectibles, 0, n, p.score, collectibleId, rolls);
        var i := 0;
        ghost var rem := total;
        while i < n
          invariant 0 <= i <= n
          invariant Valid() && players == old(players) && p == players[socketId]
          invariant p.x == px && p.y == py
          invariant |collectibles| == n
          invariant rem == Scan(socketId, px, py, collectibles, i, n, p.score, collectibleId, rolls)
          invariant rem.collectibles == total.collectibles && rem.score == total.score && rem.nextId == total.nextId
          invariant out + rem.events == total.events
        {
          var c := collectibles[i];
          if p.Collision(c) {
            ghost var before, oldOut, oldScore, oldId := collectibles, out, p.score, collectibleId;
            RemovalKeepsInvariant(collectibles, i, collectibleId);
            p.score := p.score + c.value;
            collectibles := collectibles[..i] + collectibles[i + 1..];
            var spawned := CreateCollectible(rolls(collectibleId));
            assert collectibles == Spliced(before, i, spawned);
            ScanHitStep(socketId, px, py, before, i, n, oldScore, oldId, rolls, spawned, collectibles, p.score, collectibleId);
            var e := Emission(Everyone, CollectibleCollected(socketId, c.id, spawned, p.score));
            out := out + [e];
            rem := Scan(socketId, px, py, collectibles, i + 1, n, p.score, collectibleId, rolls);
            assert oldOut + ([e] + rem.events) == out + rem.events;
          } else {
            ScanMissStep(socketId, px, py, collectibles, i, n, p.score, collectibleId, rolls);
            rem := Scan(socketId, px, py, collectibles, i + 1, n, p.score, collectibleId, rolls);
          }
          i := i + 1;
        }
        out := out + [Emission(Others, PlayerMoved(socketId, p.x, p.y, p.score))];
      }
    }

    /** The `disconnect` handler: delete only this socket's player and announce its departure. */
    method Disconnect(socketId: string) returns (out: seq<Emission>)
      requires Valid()
      modifies this
      ensures Valid()
      ensures players == old(players) - {socketId}
      ensures collectibles == old(collectibles) && collectibleId == old(collectibleId)
      ensures out == [Emission(Everyone, PlayerLeft(socketId))]
    {
      players := players - {socketId};
      out := [Emission(Everyone, PlayerLeft(socketId))];
    }
  }
}
