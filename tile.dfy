/** One tile of the board: the mark it holds and whether its click collider
    is enabled. */
module Tiles {
  import opened Rules

  class Tile {
    /** Where the tile was placed when it was instantiated. */
    const x: int
    const y: int

    var value: int
    var colliderEnabled: bool

    /** Instantiating a tile at (x, y) and running its start-up, which marks
        it empty. Its collider starts enabled, so it can be clicked. */
    constructor (x: int, y: int)
      ensures this.x == x && this.y == y
      ensures value == Empty && colliderEnabled
    {
      this.x := x;
      this.y := y;
      value := Empty;
      colliderEnabled := true;
    }

    /** Stores the mark with no check of what the tile held before; the
        collider is left as it was. */
    method SetValue(value: int)
      modifies this`value
      ensures this.value == value
    {
      this.value := value;
    }

    method GetValue() returns (v: int)
      ensures v == value
    {
      v := value;
    }

    /** Showing the mark's sprite also disables the collider, so the tile
        can no longer be clicked; the stored value is left as it was.
        Nothing enables the collider again. */
    method SetSprite()
      modifies this`colliderEnabled
      ensures !colliderEnabled
    {
      colliderEnabled := false;
    }
  }
}
