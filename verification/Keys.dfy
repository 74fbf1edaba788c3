/** Key codes that several parts name. */
module Keys {

  const KEY_NONE := 0
}
