/** Transactions, their senders and their costs. */
module Transactions {
  type Address = nat
  type Byte = x: int | 0 <= x < 256

  datatype Option<+T> = None | Some(value: T)

  /**
   A signed transaction. `id` stands for everything the pool never looks at, so that a
   transaction is identified by its value just as the source identifies it by its hash.
   `signed` says whether the sender can be recovered from the signature.
   */
  datatype Tx = Tx(
    id: nat,
    signed: bool,
    from: Address,
    nonce: nat,
    price: int,
    gas: nat,
    value: int,
    size: nat,
    data: seq<Byte>,
    creation: bool)
  {
    /** value + price * gas: the most the sender can be charged. */
    function Cost(): (c: int) {
      value + price * gas
    }
  }
}
