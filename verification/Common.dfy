/** Types shared by the managers and codecs: optional values, status codes, bytes and integer widths. */
module Common {

  datatype Option<+T> = None | Some(value: T)

  /** The members of StatusCode that the modelled operations return. */
  datatype StatusCode =
    | OK
    | ERROR
    | DEV_NOT_ACTIVATED
    | COMM_DISCONNECTED
    | ORDER_NOT_FOUND
    | ORDER_QUEUE_FULL
    | ORDER_INVALID_STATE
    | ORG_NOT_FOUND
    | ORG_HAS_CHILDREN
    | ORG_DUPLICATE_TENANT
    | ACCOUNT_NOT_FOUND
    | ACCOUNT_LOCKED
    | ACCOUNT_BAD_PASSWORD
    | ACCOUNT_DUPLICATE

  type byte = x: int | 0 <= x < 256

  /** One more than the largest uint32_t. */
  const WORD: nat := 0x1_0000_0000
  const INT32_MAX: int := 0x7FFF_FFFF
  const INT64_MAX: int := 0x7FFF_FFFF_FFFF_FFFF
}
