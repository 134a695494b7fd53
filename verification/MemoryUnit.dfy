// The data port: one transaction at a time, three cycles each, and a
// response that lives one cycle (src/memory/memory_unit.cpp).
module MemoryUnits {
  import opened Types
  import opened Image
  import opened Isa

  const DATA_LATENCY := 3

  datatype Transaction = Transaction(request: MemoryRequest, remaining: nat, valid: bool)

  const NO_TRANSACTION := Transaction(NO_REQUEST, 0, false)

  datatype StoreWrite = StoreWrite(address: Address, value: Word, width: MemoryWidth, valid: bool)

  const NO_STORE_WRITE := StoreWrite(0, 0, WORD, false)

  datatype MemoryState = MemoryState(bytes: Bytes, transaction: Transaction, response: MemoryResponse)

  predicate Available(m: MemoryState) { !m.transaction.valid }

  /** The fetch port: None is an out-of-range fetch. */
  function Fetch(m: MemoryState, pc: Address): Option<Word> { ReadWord(m.bytes, pc) }

  function Respond(bytes: Bytes, request: MemoryRequest): MemoryResponse {
    match request.kind
    case LOAD =>
      (match RawRead(bytes, request.address, request.width)
       case None => MemoryResponse(request.tag, 0, false, false, true)
       case Some(raw) => MemoryResponse(request.tag, raw, false, true, true))
    case STORE =>
      MemoryResponse(request.tag, 0, true, InBounds(request.address, WidthInBytes(request.width)), true)
  }

  predicate Completes(m: MemoryState) { m.transaction.valid && m.transaction.remaining <= 1 }

  /** The write that reaches memory at the end of this cycle. */
  function ScheduledWrite(m: MemoryState): StoreWrite {
    var request := m.transaction.request;
    if Completes(m) && request.kind.STORE? && InBounds(request.address, WidthInBytes(request.width))
    then StoreWrite(request.address, request.value, request.width, true)
    else NO_STORE_WRITE
  }

  predicate Accepts(m: MemoryState, request: MemoryRequest) {
    !m.transaction.valid && request.valid && request.tag.valid
  }

  function NextTransaction(m: MemoryState, request: MemoryRequest): Transaction {
    if m.transaction.valid then
      (if m.transaction.remaining > 1
       then m.transaction.(remaining := m.transaction.remaining - 1)
       else NO_TRANSACTION)
    else if Accepts(m, request) then Transaction(request, DATA_LATENCY, true)
    else m.transaction
  }

  function NextResponse(m: MemoryState): MemoryResponse {
    if Completes(m) then Respond(m.bytes, m.transaction.request) else NO_RESPONSE
  }

  function Written(bytes: Bytes, write: StoreWrite): Bytes {
    if !write.valid then bytes
    else
      match Write(bytes, write.address, write.width, write.value)
      case None => bytes
      case Some(after) => after
  }

  /** The unit after a cycle. */
  function Apply(m: MemoryState, request: MemoryRequest): MemoryState {
    MemoryState(Written(m.bytes, ScheduledWrite(m)), NextTransaction(m, request), NextResponse(m))
  }

  /** A request the port accepts occupies it for three cycles and is answered at the end of the third, from
      what memory holds then, whatever is asked meanwhile; an answer lives one cycle. */
  lemma AnsweredInThree(m: MemoryState, request: MemoryRequest, others: seq<MemoryRequest>)
    requires Available(m) && request.valid && request.tag.valid && |others| == 4
    ensures var first := Apply(m, request);
            var second := Apply(first, others[0]);
            var third := Apply(second, others[1]);
            var answered := Apply(third, others[2]);
            && !Available(first) && !Available(second) && !Available(third) && Available(answered)
            && !first.response.valid && !second.response.valid && !third.response.valid
            && first.transaction.request == request && first.bytes == second.bytes == third.bytes == m.bytes
            && answered.response == Respond(m.bytes, request) && answered.response.valid
            && answered.response.tag == request.tag
            && !Apply(answered, others[3]).response.valid
  {
    hide RawRead, Write, InBounds;
  }

  /** A free port ignores what names no tag. */
  lemma UntaggedIsIgnored(m: MemoryState, request: MemoryRequest)
    requires Available(m) && !(request.valid && request.tag.valid)
    ensures Apply(m, request) == m.(response := NO_RESPONSE)
  {
    hide Respond, Write;
  }
}
