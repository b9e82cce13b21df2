/** Tile kinds and the tile value a maze cell holds. */
module Tiles {

  /** The three kinds of maze cell. */
  datatype TileType = Wall | Floor | Exit {

    /** Walkability of a kind. The enum itself declares no such method;
        the rule used here is the one the tile painter's branches imply:
        every kind but WALL is walkable (EXIT cells are walked onto). */
    predicate IsWalkable() { this != Wall }

    predicate IsExit() { this == Exit }
  }

  /** A maze cell. Its kind is final: no operation replaces it, so a `Tile`
      is a value. */
  datatype Tile = Tile(kind: TileType) {

    function GetType(): (t: TileType)
      ensures Tile(t) == this
    {
      kind
    }

    predicate IsWalkable() { kind.IsWalkable() }

    predicate IsExit() { kind.IsExit() }
  }

  /** The non-walkable tiles are exactly the WALL tiles, and the exit
      tiles exactly the EXIT tiles; both depend only on the kind. */
  lemma TileKinds(t: Tile)
    ensures !t.IsWalkable() <==> t.GetType() == Wall
    ensures t.IsExit() <==> t.GetType() == Exit
    ensures t.IsExit() ==> t.IsWalkable()
  {
  }

  /** Tiles of equal kind answer every query alike. */
  lemma QueriesDependOnKindOnly(t: Tile, u: Tile)
    requires t.GetType() == u.GetType()
    ensures t == u
    ensures t.IsWalkable() == u.IsWalkable() && t.IsExit() == u.IsExit()
  {
  }
}
