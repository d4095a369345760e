/** The names and fixed strings of the messages: `libs/robotlogstr/robotlogstr.c`. */
module Keys {
  const CMD := "cmd"
  const CMD_SWARM := "swarm"
  const ACCOUNT := "account"
  const TYPE := "type"
  const PORT := "port"
  const SEQUENCE := "sequence"
  const ID := "id"
  const X := "x"
  const Y := "y"
  const Z := "z"
  const ORDER := "order"
  const VALUE := "value"
}
