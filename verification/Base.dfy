/** What several parts share: integer widths, a constant of the game, and an optional value. */
module Base {
  const U16: nat := 0x1_0000
  const U32: nat := 0x1_0000_0000
  const U64: nat := 0x1_0000_0000_0000_0000

  /** Teams from this number on are tribes of players. */
  const FIRST_PLAYER_TEAM: int := 50000

  datatype Option<T> = None | Some(value: T)
}
