/**
  Record shapes without behaviour: the payment of `src/models/payment.rs` and the message of
  `src/models/message.rs`.
*/
module Records {
  import opened Wrappers
  import opened Ids
  import opened Clock

  /** An `f64` amount, kept as its 64 IEEE-754 bits: the handlers only copy it. */
  type F64 = bv64

  datatype Payment = Payment(
    id: Option<ObjectId>,
    purchaser_id: string,
    seller_id: string,
    payment_type: string,
    description: Option<string>,
    amount: F64,
    currency: string,
    status: string,
    created_at: string,
    updated_at: string)

  datatype Message = Message(
    message_id: Uuid,
    sender: Uuid,
    receiver: Uuid,
    content: string,
    created_at: Instant,
    updated_at: Instant)
}
