/**
 * Types of the Nexport.Transports namespace that the modelled files use but do
 * not declare: bytes on the wire, the reliability classes, and the peer handle.
 */
module Transport {

  /** One byte of a wire buffer. */
  newtype byte = x: int | 0 <= x < 0x100

  type Bytes = seq<byte>

  /** The reliability class an application asks for when it sends. */
  datatype MessageChannel =
    | Reliable
    | ReliableUnordered
    | ReliableSequenced
    | Unreliable
    | UnreliableSequenced
    | Unknown
  {
    /** The classes whose delivery is guaranteed, whatever their ordering. */
    predicate GuaranteesDelivery() {
      Reliable? || ReliableUnordered? || ReliableSequenced?
    }
  }

  /** A peer handle: the transport-native key rendered as a string; equal when the strings are. */
  datatype ClientIdentifier = ClientIdentifier(identifier: string)
}
