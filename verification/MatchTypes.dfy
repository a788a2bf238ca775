/** The names several parts of a match share: its two teams, what is in the water, and the squares of its map. */
module MatchTypes {

  datatype Team = Team1 | Team2

  type EntityId = int

  /** A packed square: `row * cols + col`. */
  type Cell = nat
}
