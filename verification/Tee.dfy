/** Result codes and private storage objects of the trusted application. */
module Tee {
  import opened Bytes

  datatype Code =
    | BadParameters | BadFormat | BadState | CorruptObject | Security | NotSupported | ItemNotFound
    | AccessConflict | ExcessData | Overflow | ShortBuffer | StorageNotAvailable
    /** Not a return code: the command never returned, because power was lost. */
    | PowerLost

  datatype Result<+T> = Done(value: T) | Err(code: Code)

  type slot = i: int | 0 <= i <= 1

  datatype Object = Acceptance(slot: slot) | Legacy | Catalog(slot: slot) | App(slot: slot)

  /** An object is absent, empty (created but not yet written) or holds its bytes. */
  type Store = map<Object, bytes>

  predicate SameAt(a: Store, b: Store, o: Object) {
    (o in a <==> o in b) && (o in a ==> a[o] == b[o])
  }

  /** Open, size check and read of one object. */
  function ReadObject(store: Store, id: Object, limit: nat): (r: Result<bytes>)
    ensures r.Done? ==> id in store && r.value == store[id]
  {
    if id !in store then Err(ItemNotFound)
    else if store[id] == [] || |store[id]| > limit then Err(BadFormat)
    else Done(store[id])
  }

  /** Where a write of one slot object, or the read-back after it, goes wrong. */
  datatype Fault = NoFault | CreateFails | CutAfterCreate | WriteFails | FailAfterClose | CutAfterClose | ReopenFails

  /** The object holds the new bytes afterwards. */
  predicate Lands(fault: Fault) {
    fault in {NoFault, FailAfterClose, CutAfterClose, ReopenFails}
  }

  function WriteObject(store: Store, id: Object, data: bytes, fault: Fault): (s: Store)
    ensures Lands(fault) ==> s == store[id := data]
    ensures forall o: Object :: o != id ==> SameAt(store, s, o)
  {
    match fault
    case CreateFails => store
    case CutAfterCreate => store[id := []]
    case WriteFails => store - {id}
    case _ => store[id := data]
  }

  function FaultCode(fault: Fault): Code
    requires fault != NoFault
  {
    match fault
    case CreateFails => StorageNotAvailable
    case WriteFails => StorageNotAvailable
    case FailAfterClose => StorageNotAvailable
    case ReopenFails => CorruptObject
    case _ => PowerLost
  }
}
