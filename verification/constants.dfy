/** The surface catalog and tile size shared by the game, the editor and the AI runner. */
module Constants {

  /** World units per tile in the game, both editors and the AI runner. */
  const TileSize: int := 16

  /** Tile codes of the three known surfaces. */
  const Offroad: int := 0
  const Asphalt: int := 1
  const Curb: int := 2

  /** A surface: its display name and the fraction of the intended displacement it lets through. */
  datatype Surface = Surface(name: string, traction: real)

  /** The catalog of known tile codes. */
  const Catalog: map<int, Surface> := map[
    Offroad := Surface("offroad", 0.3),
    Asphalt := Surface("asphalt", 1.0),
    Curb := Surface("curb", 0.6)
  ]

  /** The catalog entry for `code`; any code the catalog does not know reads as a curb. */
  function SurfaceOf(code: int): (s: Surface)
    ensures s in Catalog.Values
    ensures 0.0 < s.traction <= 1.0
    ensures s.traction == 1.0 <==> code == Asphalt
    ensures code !in Catalog ==> s.name == "curb"
    ensures code in Catalog ==> s == Catalog[code]
    ensures code !in Catalog ==> s == Catalog[Curb]
    ensures s.traction == (if code == Asphalt then 1.0 else if code == Offroad then 0.3 else 0.6)
  {
    if code in Catalog then Catalog[code] else Catalog[Curb]
  }

  /** The catalog defines exactly codes 0, 1, 2, every traction is in (0,1], and grip is ordered
      asphalt > curb > offroad, so the fallback surface never gives full grip. */
  lemma CatalogShape()
    ensures Catalog.Keys == {Offroad, Asphalt, Curb}
    ensures forall c :: c in Catalog ==> 0.0 < Catalog[c].traction <= 1.0
    ensures Catalog[Asphalt].traction > Catalog[Curb].traction > Catalog[Offroad].traction
    ensures TileSize > 0
  {
  }
}
