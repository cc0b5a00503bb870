/** Entities shared by every part of the ledger. */
module Domain {
  import opened Calendar

  type Id = string

  datatype Option<+T> = None | Some(value: T)

  datatype Result<+T> = Ok(value: T) | Err(error: Error)

  datatype Error = Invalid | NotFound | Constraint | Database

  function Min(a: int, b: int): int {
    if a < b then a else b
  }

  const MAX_INT64: int := 0x7FFF_FFFF_FFFF_FFFF
  const MIN_INT64: int := -0x8000_0000_0000_0000
  const TWO_64: int := 0x1_0000_0000_0000_0000

  type int64 = x: int | MIN_INT64 <= x <= MAX_INT64

  /** Two's-complement wrap-around of Go's int64 arithmetic. */
  function Wrap(x: int): (r: int)
    ensures MIN_INT64 <= r <= MAX_INT64
  {
    (x - MIN_INT64) % TWO_64 + MIN_INT64
  }

  datatype Kind = Income | Expense | Transfer

  function KindText(k: Kind): string {
    match k
    case Income => "income"
    case Expense => "expense"
    case Transfer => "transfer"
  }

  /** A transaction's stored columns, before it has an id. */
  datatype Tx = Tx(
    kind: Kind,
    amount: int,
    account: Id,
    toAccount: Option<Id>,
    category: Option<Id>,
    occurredAt: Day,
    note: string)

  /** The amount check and the transactions_shape constraint. */
  predicate ShapeOk(t: Tx) {
    && t.amount > 0
    && (match t.kind
        case Transfer => t.toAccount.Some? && t.toAccount.value != t.account && t.category.None?
        case _ => t.toAccount.None?)
  }
}
