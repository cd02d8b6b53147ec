/**
 * The plain data of game/messages.py that the modelled code builds or
 * carries: client ids, the controls a client can hold, and the messages
 * the modelled code sends or buffers.
 */
module Messages {

  /** `ClientId`: a frozen wrapper around the number a connection was given. */
  datatype ClientId = ClientId(value: int)

  /** `Control`: the inputs a client can hold down. */
  datatype Control = Left | Right | Up | Down | Fire

  /** `ClientMessage`: everything a client can send. */
  datatype ClientMessage =
    | ClientHello(username: string)
    | InputDown(control: Control)
    | InputUp(control: Control)
    | Rotate(radians: real)

  /** The members of `ServerMessage` that the modelled code sends. */
  datatype ServerMessage =
    | ServerGoodbye
    | PlayerJoined(id: int, username: string)
    | PlayerLeft(id: int)
}
