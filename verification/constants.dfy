/** Cell fills and player names of the Connect-N game (constants.py). */
module Constants {

  /** The fill of a cell nobody has played in. */
  const Empty: int := 0

  /** The names of the two players; a played cell holds its player's name. */
  const Player1: int := 1
  const Player2: int := 2

  /** The connect length the game starts with. The start-up dialog may change
      it, so every operation below takes the connect length `n` as a parameter. */
  const DefaultConnect: nat := 4

  predicate IsPlayer(v: int) {
    v == Player1 || v == Player2
  }

  predicate IsCell(v: int) {
    v == Empty || IsPlayer(v)
  }
}
