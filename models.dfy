/** The record that both the TCP server and the queue listener pass around. */
module Models {

  /**
   * `ResponceIntegration` (the source keeps this spelling): a message text and a success flag.
   * The TCP server returns one from `UpServerAsync`; the queue listener wraps every delivered
   * message body in one.
   */
  datatype ResponceIntegration = ResponceIntegration(message: string, result: bool)
}
