/**
 * The data shapes of the Kafka client library that the relay touches:
 * consumed messages, produced records, per-partition produce confirmations
 * and client errors. The client itself (connections, polling, producing)
 * is not modelled; its answers are inputs to the operations that use it.
 */
module Client {
  import opened Wrappers

  /** Key and value payloads are opaque byte strings; empty ones are legal. */
  type Bytes = seq<bv8>

  /** One consumed message: its key and value bytes. */
  datatype Message = Message(key: Bytes, value: Bytes)

  /** The messages one partition delivered in one poll, in their stable order. */
  datatype MessageSet = MessageSet(messages: seq<Message>)

  /** A record handed to the producer: destination topic, key and value. */
  datatype Record = Record(topic: string, key: Bytes, value: Bytes)

  /** A Kafka protocol error code, as the broker reports it. */
  type KafkaCode = int

  /**
   * The client's error type: a broker-reported error code, or any other
   * client failure (connection, I/O, protocol), kept as a description.
   */
  datatype KafkaError = Kafka(code: KafkaCode) | Other(description: string)

  /** What the broker answered for one partition: the assigned offset or an error code. */
  datatype PartitionConfirm = PartitionConfirm(partition: int, offset: Result<int, KafkaCode>)

  /** The confirmations for one topic of a batched produce call. */
  datatype ProduceConfirm = ProduceConfirm(topic: string, partitionConfirms: seq<PartitionConfirm>)

  /** What one `send_all` call returns: the confirmations, or a client error. */
  type SendAllResult = Result<seq<ProduceConfirm>, KafkaError>

  /** The record the reader builds from a consumed message: the key and value are copied unchanged. */
  function FromMessage(topic: string, m: Message): Record
  {
    Record(topic, m.key, m.value)
  }
}
