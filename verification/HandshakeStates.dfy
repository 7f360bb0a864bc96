/** The states of a device's handshake. */
module HandshakeStates {
  datatype HsState = Zeroed | InitiationCreated | InitiationConsumed | ResponseCreated | ResponseConsumed
}
