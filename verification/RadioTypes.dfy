/** Error codes shared by the radio drivers. */
module RadioTypes {
  datatype RadioError =
    | NoError | NotSupported | InvalidParams | IoError | Busy | HardwareError | InvalidState | Generic
}
