/** Small concepts shared by the other modules. */
module Common {

  datatype Option<T> = None | Some(value: T)

  /** Threads are named by numbers in the step systems. */
  type Tid = nat

  predicate Distinct(s: seq<Tid>) {
    forall i, j :: 0 <= i < j < |s| ==> s[i] != s[j]
  }

  /** A lock stays as it is, or passes to or from t. */
  predicate Passes(lock: Option<Tid>, lock': Option<Tid>, t: Tid) {
    lock' == lock || (lock == None && lock' == Some(t)) || (lock == Some(t) && lock' == None)
  }
}
