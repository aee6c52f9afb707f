/** The closed catalogue of materials, their physical classes and the
    per-material property record. */
module Materials {

  /** The count sentinel that sizes every property table. */
  const Count: nat := 5

  /** A material, identified by its ordinal: its slot in a property table. */
  newtype Element = n: int | 0 <= n < Count

  const Air: Element := 0
  const Sand: Element := 1
  const Stone: Element := 2
  const Water: Element := 3
  const Bedrock: Element := 4

  /** Physical class of a material; the movement rules only test Empty and Liquid. */
  datatype Type = Empty | Powder | Solid | Liquid | Gas

  /** An RGBA colour; presentation only. */
  datatype Color = Color(r: int, g: int, b: int, a: int)

  const Blank := Color(0, 0, 0, 0)
  const Black := Color(0, 0, 0, 255)
  const Beige := Color(211, 176, 131, 255)
  const Gray := Color(130, 130, 130, 255)
  const Blue := Color(0, 121, 241, 255)
  const DarkGray := Color(80, 80, 80, 255)

  /** The display colour of each material, by ordinal. */
  const ParticleColors: seq<Color> := [Black, Beige, Gray, Blue, DarkGray]

  /** The property tables of the catalogue, one slot per material ordinal:
      type, display colour, weight, viscosity and name. `weights` is the
      number of rows a falling cell tries to descend per tick, `viscosity`
      the number of sideways steps a blocked liquid tries. */
  datatype Catalogue = Catalogue(types: seq<Type>, colors: seq<Color>, weights: seq<int>, viscosity: seq<int>, names: seq<string>)

  /** The zero-initialised tables held before any load. */
  const Unset := Catalogue([Empty, Empty, Empty, Empty, Empty], [Blank, Blank, Blank, Blank, Blank], [0, 0, 0, 0, 0], [0, 0, 0, 0, 0], ["", "", "", "", ""])

  /** A catalogue with exactly one slot per material in every table. */
  type Table = t: Catalogue | |t.types| == Count && |t.colors| == Count && |t.weights| == Count && |t.viscosity| == Count && |t.names| == Count
    witness Unset

  function TypeOf(t: Table, e: Element): Type {
    t.types[e]
  }

  function WeightOf(t: Table, e: Element): int {
    t.weights[e]
  }

  function ViscosityOf(t: Table, e: Element): int {
    t.viscosity[e]
  }

  function ColorOf(t: Table, e: Element): Color {
    t.colors[e]
  }

  function NameOf(t: Table, e: Element): string {
    t.names[e]
  }
}
