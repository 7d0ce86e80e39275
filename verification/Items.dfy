/** The rows and log entries that the stores keep, and the tables they form. */
module Items {
  import opened Basics
  import opened TextFormat

  datatype MemoryType = Episodic | Semantic | Procedural

  datatype Tier = Working | Short | Long

  /** A stored memory. Weight and provenance, which no operation modelled here looks at, are left out. */
  datatype MemoryItem = MemoryItem(
    id: string,
    interactionId: string,
    sessionId: string,
    tenant: string,
    namespace: string,
    namespaceKey: string,
    memoryType: MemoryType,
    tier: Tier,
    content: string,
    entities: seq<string>,
    vectorRef: string,
    accessCount: nat,
    lastAccessed: nat,
    created: nat,
    tombstone: bool,
    entitiesPending: bool)

  /** The reason every merge is recorded with. */
  const MERGE_REASON := "ann-sim+shared-entity"

  type Vector = seq<real>

  /** What a merge-log row says; the row's own id is kept apart. */
  datatype MergeFact = MergeFact(sourceId: string, targetId: string, reason: string, at: nat)

  /** A log payload. JSON text is kept in parsed form: a commit envelope, a bare item, or neither
      (`Text`), which is also what the tab-separated and plain-id payloads are. JSON writers escape tabs,
      so JSON text is always a single tab-separated field. */
  datatype Payload =
    | Envelope(item: MemoryItem, vector: Option<Vector>)
    | Bare(item: MemoryItem)
    | Text(text: string)

  datatype WopEntry = WopEntry(seqNo: int, op: string, payload: Payload, at: nat)

  type Rows = map<string, MemoryItem>

  type Vectors = map<nat, Vector>

  /** UPDATE .. SET tombstone .. WHERE id: absent rows are left absent. */
  function WithTombstone(rows: Rows, id: string, flag: bool): Rows {
    if id in rows then rows[id := rows[id].(tombstone := flag)] else rows
  }

  /** INSERT OR REPLACE by primary key. */
  function Put(rows: Rows, item: MemoryItem): Rows {
    rows[item.id := item]
  }

  /** Inserting a vector under an id that is already present keeps the stored vector. */
  function InsertVector(vectors: Vectors, id: nat, vector: Vector): Vectors {
    if id in vectors then vectors else vectors[id := vector]
  }

  /** One access of a live row. */
  function Touched(row: MemoryItem, now: nat): MemoryItem {
    if row.tombstone then row else row.(accessCount := row.accessCount + 1, lastAccessed := now)
  }

  function AllTouched(rows: Rows, ids: set<string>, now: nat): Rows {
    map id | id in rows :: if id in ids then Touched(rows[id], now) else rows[id]
  }

  function Ref(item: MemoryItem): Option<nat> {
    ParseU64(item.vectorRef)
  }
}
