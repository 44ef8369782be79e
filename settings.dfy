/** Development settings of the server that the modelled routes read. */
module Settings {

  /** The user every request acts for until authentication exists (`settings.DUMMY_USER_ID`). */
  const DUMMY_USER_ID: int := 1
}
