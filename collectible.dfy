/**
 * The collectible record of the multiplayer game (`public/Collectible.mjs`):
 * position, reward value and identity are copied from the constructor's
 * argument, and the bounding box is always 20 x 20. The class has no
 * methods and nothing assigns its fields after construction, so it is a
 * value here.
 */
module CollectibleRecord {

  /** Side of a collectible's square bounding box. */
  const Side: int := 20

  datatype Collectible = Collectible(x: int, y: int, value: int, id: nat) {
    const width: int := Side
    const height: int := Side
  }

  /** Construction keeps the four given fields and fixes the box at 20 x 20. */
  lemma ConstructorCopiesFields(x: int, y: int, value: int, id: nat)
    ensures var c := Collectible(x, y, value, id);
      c.x == x && c.y == y && c.value == value && c.id == id && c.width == 20 && c.height == 20
  {
  }
}
