/**
 * The message bus as the poller sees it (MonitoringQueue.cs): a publish log.
 * Connection state is an input of the delivery loop, one value per message.
 */
module Bus {
  import opened Config

  class MonitoringQueue {
    /** Messages handed to the broker, oldest first. */
    var published: seq<string>
    /** ESBPublish of the configuration kept by Connect: when false, Publish returns without sending. */
    const publishEnabled: bool

    /** A bus given its configuration (the constructor followed by a successful Connect). */
    constructor (config: Configuration)
      ensures published == [] && publishEnabled == config.esbPublish
    {
      published := [];
      publishEnabled := config.esbPublish;
    }

    /** Sends one message, unless publishing is disabled. */
    method Publish(message: string)
      modifies this`published
      ensures published == old(published) + (if publishEnabled then [message] else [])
    {
      if !publishEnabled {
        return;
      }
      published := published + [message];
    }
  }
}
