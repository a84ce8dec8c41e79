/**
 * The player entity of the multiplayer game (`public/Player.mjs`): a
 * position that `MovePlayer` updates in place, a score that the server
 * updates in place, a fixed identity and a fixed 30 x 30 box; the strict
 * bounding-box collision test against a collectible; and the rank text
 * computed from a descending sort of a copy of the roster.
 */
module PlayerRules {
  import opened CollectibleRecord
  import opened Text
  import opened Sorting

  /** The direction tokens `movePlayer` recognises. */
  const Directions: set<string> := {"up", "down", "left", "right"}

  /** The position `(x, y)` becomes after `movePlayer(dir, speed)`: a recognised direction
      moves along exactly one axis by the speed (up and left towards smaller coordinates);
      any other token leaves the position alone. */
  function Moved(x: int, y: int, dir: string, speed: int): (r: (int, int))
    ensures var (nx, ny) := r;
      && (dir in Directions ==> Abs(nx - x) + Abs(ny - y) == Abs(speed) && (nx == x || ny == y))
      && ((dir == "up" || dir == "down") ==> nx == x)
      && ((dir == "left" || dir == "right") ==> ny == y)
      && ((dir == "up" || dir == "left") ==> nx + ny == x + y - speed)
      && ((dir == "down" || dir == "right") ==> nx + ny == x + y + speed)
      && (dir !in Directions ==> r == (x, y))
  {
    if dir == "up" then (x, y - speed)
    else if dir == "down" then (x, y + speed)
    else if dir == "left" then (x - speed, y)
    else if dir == "right" then (x + speed, y)
    else (x, y)
  }

  function Abs(n: int): nat { if n < 0 then -n else n }

  /** Moving one way and then back the other way by the same speed returns to the start. */
  lemma OppositeMovesCancel(x: int, y: int, speed: int)
    ensures var (ux, uy) := Moved(x, y, "up", speed); Moved(ux, uy, "down", speed) == (x, y)
    ensures var (lx, ly) := Moved(x, y, "left", speed); Moved(lx, ly, "right", speed) == (x, y)
  {
  }

  /** The collision rule of `Player.collision`: strict overlap of the box at
      `(x, y)` of size `w` x `h` with the item's box, whose side is the literal 20. */
  predicate HitBox(x: int, y: int, w: int, h: int, item: Collectible) {
    x < item.x + 20 && x + w > item.x && y < item.y + 20 && y + h > item.y
  }

  /** The integer cell `(i, j)` lies in the box with corner `(x, y)` and size `w` x `h`. */
  predicate InBox(i: int, j: int, x: int, y: int, w: int, h: int) {
    x <= i < x + w && y <= j < y + h
  }

  /** One score entry of a roster: what the rank computation reads of each player. */
  datatype Standing = Standing(id: string, score: int)

  function ScoreKey(s: Standing): int { s.score }

  /** Number of roster entries scoring strictly more than `v`. */
  function Above(st: seq<Standing>, v: int): nat {
    CountWhere(st, (s: Standing) => s.score > v)
  }

  /** Number of roster entries scoring at least `v`. */
  function AtLeast(st: seq<Standing>, v: int): nat {
    CountWhere(st, (s: Standing) => s.score >= v)
  }

  ghost predicate UniqueStandingIds(st: seq<Standing>) {
    forall i, j :: 0 <= i < j < |st| ==> st[i].id != st[j].id
  }

  /** `Array.prototype.findIndex` for the first entry with this id, or -1. */
  function FindIndex(st: seq<Standing>, id: string): (k: int)
    ensures -1 <= k < |st|
    ensures k >= 0 ==> st[k].id == id && forall j :: 0 <= j < k ==> st[j].id != id
    ensures k == -1 ==> forall j :: 0 <= j < |st| ==> st[j].id != id
    decreases |st|
  {
    if |st| == 0 then -1
    else if st[0].id == id then 0
    else
      var k := FindIndex(st[1..], id);
      if k == -1 then -1 else k + 1
  }

  /** `findIndex(...) + 1` over the descending sort by score: a position from 1 to the
      roster length for an id some entry carries, and 0 for an id no entry carries. */
  function RankNumber(st: seq<Standing>, id: string): (r: nat)
    ensures r <= |st|
    ensures r == 0 <==> forall j :: 0 <= j < |st| ==> st[j].id != id
  {
    var sorted := SortDesc(st, ScoreKey);
    PermutationKeepsIds(st, sorted, id);
    FindIndex(sorted, id) + 1
  }

  /** A permutation of a roster carries an id exactly when the roster does. */
  lemma PermutationKeepsIds(st: seq<Standing>, sorted: seq<Standing>, id: string)
    requires multiset(sorted) == multiset(st)
    ensures (forall j :: 0 <= j < |st| ==> st[j].id != id) <==> (forall j :: 0 <= j < |sorted| ==> sorted[j].id != id)
  {
    if forall j :: 0 <= j < |st| ==> st[j].id != id {
      forall j | 0 <= j < |sorted| ensures sorted[j].id != id {
        assert sorted[j] in multiset(st);
      }
    }
    if forall j :: 0 <= j < |sorted| ==> sorted[j].id != id {
      forall j | 0 <= j < |st| ensures st[j].id != id {
        assert st[j] in multiset(sorted);
      }
    }
  }

  /** The text `Rank: r/n`: after the prefix `Rank: `, the two numbers in decimal with one
      slash between them. */
  function RankText(r: nat, n: nat): (s: string)
    ensures |s| > 6 && s[..6] == "Rank: "
    ensures Split(s[6..], '/') == [NatToString(r), NatToString(n)]
  {
    var a := NatToString(r);
    var b := NatToString(n);
    var s := "Rank: " + a + "/" + b;
    assert '/' !in a && '/' !in b by {
      assert forall k :: 0 <= k < |a| ==> IsDigit(a[k]);
      assert forall k :: 0 <= k < |b| ==> IsDigit(b[k]);
    }
    assert Join([a, b], '/') == a + "/" + b by {
      assert [a, b][1..] == [b];
    }
    SplitJoin([a, b], '/');
    assert s[6..] == a + "/" + b;
    s
  }

  lemma {:induction false} CountWhereNone<T>(s: seq<T>, p: T -> bool)
    requires forall i :: 0 <= i < |s| ==> !p(s[i])
    ensures CountWhere(s, p) == 0
    decreases |s|
  {
    if |s| > 0 {
      CountWhereNone(s[..|s| - 1], p);
    }
  }

  lemma {:induction false} CountWhereAll<T>(s: seq<T>, p: T -> bool)
    requires forall i :: 0 <= i < |s| ==> p(s[i])
    ensures CountWhere(s, p) == |s|
    decreases |s|
  {
    if |s| > 0 {
      CountWhereAll(s[..|s| - 1], p);
    }
  }

  /** With unique ids, an entry of a permutation of `st` that carries the id of
      `Standing(id, score)` is that entry. */
  lemma SameIdSameEntry(st: seq<Standing>, sorted: seq<Standing>, k: nat, id: string, score: int)
    requires UniqueStandingIds(st) && Standing(id, score) in st
    requires multiset(sorted) == multiset(st)
    requires k < |sorted| && sorted[k].id == id
    ensures sorted[k] == Standing(id, score)
  {
    assert sorted[k] in multiset(st);
    var a :| 0 <= a < |st| && st[a] == sorted[k];
    var b :| 0 <= b < |st| && st[b] == Standing(id, score);
  }

  /** In the sorted roster, the first entry with the player's id is the player's entry. */
  lemma RankPosition(st: seq<Standing>, id: string, score: int) returns (k: nat)
    requires UniqueStandingIds(st) && Standing(id, score) in st
    ensures k < |st| && k == FindIndex(SortDesc(st, ScoreKey), id)
    ensures SortDesc(st, ScoreKey)[k] == Standing(id, score)
  {
    var sorted := SortDesc(st, ScoreKey);
    assert Standing(id, score) in multiset(sorted);
    k := FindIndex(sorted, id);
    SameIdSameEntry(st, sorted, k, id, score);
  }

  lemma RankLowerBound(st: seq<Standing>, id: string, score: int)
    requires UniqueStandingIds(st) && Standing(id, score) in st
    ensures 1 + Above(st, score) <= RankNumber(st, id)
  {
    var k := RankPosition(st, id, score);
    var sorted := SortDesc(st, ScoreKey);
    SortedPrefixAbove(sorted, k);
    CountWhereSort(st, ScoreKey, (s: Standing) => s.score > score);
  }

  /** In a roster sorted by descending score, at most the first `k` entries score
      more than entry `k`. */
  lemma SortedPrefixAbove(sorted: seq<Standing>, k: nat)
    requires SortedDesc(sorted, ScoreKey) && k < |sorted|
    ensures CountWhere(sorted, (s: Standing) => s.score > sorted[k].score) <= k
  {
    var above := (s: Standing) => s.score > sorted[k].score;
    var suffix := sorted[k..];
    assert sorted == sorted[..k] + suffix;
    CountWhereAppend(sorted[..k], suffix, above);
    forall i | 0 <= i < |suffix| ensures !above(suffix[i]) {
      assert suffix[i] == sorted[k + i];
      assert ScoreKey(sorted[k]) >= ScoreKey(sorted[k + i]);
    }
    CountWhereNone(suffix, above);
  }

  /** In a roster sorted by descending score, the first `k + 1` entries all score
      at least as much as entry `k`. */
  lemma {:induction false} SortedPrefixAtLeast(sorted: seq<Standing>, k: nat)
    requires SortedDesc(sorted, ScoreKey) && k < |sorted|
    ensures CountWhere(sorted, (s: Standing) => s.score >= sorted[k].score) >= k + 1
  {
    var atLeast := (s: Standing) => s.score >= sorted[k].score;
    var prefix := sorted[..k + 1];
    assert sorted == prefix + sorted[k + 1..];
    CountWhereAppend(prefix, sorted[k + 1..], atLeast);
    forall i | 0 <= i < |prefix| ensures atLeast(prefix[i]) {
      assert ScoreKey(sorted[i]) >= ScoreKey(sorted[k]);
    }
    CountWhereAll(prefix, atLeast);
  }

  lemma RankUpperBound(st: seq<Standing>, id: string, score: int)
    requires UniqueStandingIds(st) && Standing(id, score) in st
    ensures RankNumber(st, id) <= AtLeast(st, score)
  {
    var k := RankPosition(st, id, score);
    var sorted := SortDesc(st, ScoreKey);
    SortedPrefixAtLeast(sorted, k);
    CountWhereSort(st, ScoreKey, (s: Standing) => s.score >= score);
  }

  /** The rank of a player present in a roster with unique ids lies between
      1 + (number scoring strictly more) and (number scoring at least as much). */
  lemma RankBounds(st: seq<Standing>, id: string, score: int)
    requires UniqueStandingIds(st) && Standing(id, score) in st
    ensures 1 + Above(st, score) <= RankNumber(st, id) <= AtLeast(st, score)
  {
    RankLowerBound(st, id, score);
    RankUpperBound(st, id, score);
  }

  /** A player who alone holds the top score ranks first. */
  lemma TopScorerRanksFirst(st: seq<Standing>, id: string, score: int)
    requires UniqueStandingIds(st) && Standing(id, score) in st
    requires forall i :: 0 <= i < |st| && st[i].id != id ==> st[i].score < score
    ensures RankNumber(st, id) == 1
  {
    var sorted := SortDesc(st, ScoreKey);
    assert Standing(id, score) in multiset(sorted);
    var m :| 0 <= m < |sorted| && sorted[m] == Standing(id, score);
    assert ScoreKey(sorted[0]) >= ScoreKey(sorted[m]);
    assert sorted[0] in multiset(st);
  }

  /** A roster entry for every player of `arr`, in order. */
  function Snapshot(arr: seq<Player>): (st: seq<Standing>)
    reads arr
    ensures |st| == |arr|
    ensures forall i :: 0 <= i < |arr| ==> st[i] == Standing(arr[i].id, arr[i].score)
  {
    seq(|arr|, i reads arr requires 0 <= i < |arr| => Standing(arr[i].id, arr[i].score))
  }

  predicate UniqueIds(arr: seq<Player>) {
    forall i, j :: 0 <= i < j < |arr| ==> arr[i].id != arr[j].id
  }

  class Player {
    var x: int
    var y: int
    var score: int
    const id: string
    const width: int := 30
    const height: int := 30

    constructor (x: int, y: int, score: int, id: string)
      ensures this.x == x && this.y == y && this.score == score && this.id == id
    {
      this.x := x;
      this.y := y;
      this.score := score;
      this.id := id;
    }

    /** `movePlayer`: the position moves as `Moved` says; score, id and box stay. */
    method MovePlayer(dir: string, speed: int)
      modifies this`x, this`y
      ensures (x, y) == Moved(old(x), old(y), dir, speed)
    {
      if dir == "up" {
        y := y - speed;
      } else if dir == "down" {
        y := y + speed;
      } else if dir == "left" {
        x := x - speed;
      } else if dir == "right" {
        x := x + speed;
      }
    }

    /** `collision(item)`: strict overlap of this player's 30 x 30 box with the item's 20 x 20
        box, which holds exactly when the two boxes share an integer cell. */
    function Collision(item: Collectible): (c: bool)
      reads this
      ensures c <==> exists i, j :: InBox(i, j, x, y, width, height) && InBox(i, j, item.x, item.y, item.width, item.height)
    {
      var c := HitBox(x, y, width, height, item);
      if c then
        var i := if x < item.x then item.x else x;
        var j := if y < item.y then item.y else y;
        assert InBox(i, j, x, y, width, height) && InBox(i, j, item.x, item.y, item.width, item.height);
        c
      else c
    }

    /** `calculateRank(arr)`: sorts a copy of the roster (which a function cannot change)
        and reports the 1-based position of this player's id, or 0 when it is absent. */
    function CalculateRank(arr: seq<Player>): (s: string)
      reads this, arr
      ensures (forall i :: 0 <= i < |arr| ==> arr[i].id != id) ==> s == RankText(0, |arr|)
      ensures this in arr && UniqueIds(arr) ==>
        exists r: nat :: s == RankText(r, |arr|)
          && 1 + Above(Snapshot(arr), score) <= r <= AtLeast(Snapshot(arr), score)
    {
      var st := Snapshot(arr);
      var r := RankNumber(st, id);
      if this in arr && UniqueIds(arr) then
        var i :| 0 <= i < |arr| && arr[i] == this;
        assert st[i] == Standing(id, score);
        RankBounds(st, id, score);
        RankText(r, |arr|)
      else
        RankText(r, |arr|)
    }
  }

  /** The collision test is overlap of the two boxes using the collectible's own width and height. */
  lemma CollisionUsesItemBox(p: Player, item: Collectible)
    ensures p.Collision(item) <==>
      p.x < item.x + item.width && p.x + p.width > item.x &&
      p.y < item.y + item.height && p.y + p.height > item.y
  {
  }

  /** A player whose corner coincides with an item's corner collides with it. */
  lemma SameCornerCollides(p: Player, item: Collectible)
    requires p.x == item.x && p.y == item.y
    ensures p.Collision(item)
  {
  }

  /** Boxes that only touch along an edge do not collide, and neither do boxes
      whose corners are at least a box width apart on one axis. */
  lemma TouchingDoesNotCollide(p: Player, item: Collectible)
    requires p.x == item.x + item.width || p.x + p.width == item.x
          || p.y == item.y + item.height || p.y + p.height == item.y
          || p.x - item.x >= item.width || item.x - p.x >= p.width
          || p.y - item.y >= item.height || item.y - p.y >= p.height
    ensures !p.Collision(item)
  {
  }
}
