/** The board dimensions and tile counts (engine/src/lib.rs:10-18). */
module Constants {
  const EvenRowLen: nat := 7
  const OddRowLen: nat := 8
  const NumRows: nat := 8
  /** `NUM_CELLS` = 7 * (8 / 2) + 8 * (8 / 2) = 60 */
  const NumCells: nat := EvenRowLen * (NumRows / 2) + OddRowLen * (NumRows / 2)
  const NumOneFish: nat := 30
  const NumTwoFish: nat := 20
  const NumThreeFish: nat := 10
  const NumFish: nat := NumOneFish + NumTwoFish + NumThreeFish
}
