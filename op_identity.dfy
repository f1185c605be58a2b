/** Operation identity: every nGraph operation kind declares a constant
    (name, version) pair that is compared in place of C++ RTTI. */
module OpIdentity {

  /** The NodeTypeInfo of an operation kind. */
  datatype NodeTypeInfo = NodeTypeInfo(name: string, version: nat)
}
