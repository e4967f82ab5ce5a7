/** Shared basics. */
module Basics {

  /** Kinds of the API group policy.open-cluster-management.io. */
  const POLICY_KIND: string := "Policy"
  const POLICY_SET_KIND: string := "PolicySet"

  datatype Option<+T> = None | Some(value: T)

  lemma {:induction false} SubsetCard<T>(x: set<T>, y: set<T>)
    requires x <= y
    ensures |x| <= |y|
  {
    if e :| e in x {
      SubsetCard(x - {e}, y - {e});
    }
  }
}
