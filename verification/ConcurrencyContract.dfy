/** Node-anchored contracts and the surface facts a requirement is checked against. */
module ConcurrencyContracts {
  datatype GuaranteeForm = Order | Wait | Exclude | AtomicOp | OtherGuarantee

  datatype NodeGuar = NodeGuar(form: GuaranteeForm, a: seq<int>, b: seq<int>, token: string, isShared: bool)

  datatype RequirementForm = MustPrecede | MustBeMediated | MustBeAtomic | OtherRequirement

  datatype NodeReq = NodeReq(form: RequirementForm, a: seq<int>, b: seq<int>, objectId: int)

  datatype Contract = Contract(nodeReqs: seq<NodeReq>, nodeGuars: seq<NodeGuar>)

  datatype AccessType = Read | Write | Free

  datatype ThreadAccess = ThreadAccess(threadId: int, accessType: AccessType, nodeId: int,
                                       isLockProtected: bool, protectingLock: string)

  /** `address` stands for the identity of the object in memory. */
  datatype SharedObject = SharedObject(address: int, accesses: seq<ThreadAccess>)
}
