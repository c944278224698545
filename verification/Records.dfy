/** The entities shared by the server and the devices. */
module Records {
  import opened Wrappers

  type Byte = x: int | 0 <= x < 256
  type Bytes = seq<Byte>
  type UserId = string
  type RecordId = string

  // A timestamptz value: microseconds since Go's zero time, which is 0 here.
  type Instant = int

  const MICROS_PER_SECOND := 1_000_000

  // What Format(time.RFC3339) keeps of an instant.
  function WholeSecond(t: Instant): int {
    t / MICROS_PER_SECOND
  }

  datatype Kind = Transactions | Attachments | Chat | Accounts | Vault

  function KindName(kind: Kind): string {
    match kind
    case Transactions => "transactions"
    case Attachments => "attachments"
    case Chat => "chat"
    case Accounts => "accounts"
    case Vault => "vault"
  }

  predicate Syncable(kind: Kind) {
    kind.Transactions? || kind.Accounts? || kind.Chat?
  }

  // A table name and a primary key in it.
  datatype Key = Key(kind: Kind, id: RecordId)

  // One pushed envelope after validation.
  datatype Push = Push(key: Key, blob: Bytes, ts: Instant)

  // A row of one of the three synced tables.  For chat, updatedAt stands for
  // created_at and deletedAt is always None: that table has neither column.
  datatype Row = Row(owner: UserId, blob: Bytes, updatedAt: Instant, deletedAt: Option<Instant>)

  // The three tables, keyed by table and id.
  type Tables = map<Key, Row>
}
