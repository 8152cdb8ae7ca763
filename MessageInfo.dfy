/** MessageInfo.cs: the event record sent to the message bus. */
module Events {
  import opened Config

  /**
   * One event. Temperatures are in tenths of a degree (the poller rounds
   * readings to one decimal); a field the service never assigns keeps C#'s
   * default 0.
   */
  datatype MessageInfo = MessageInfo(
    idMachine: int64,
    cncType: int,
    status: int,
    temperature: int,
    temperature2: int,
    temperature3: int,
    eventTime: string,
    serviceName: string)
}
