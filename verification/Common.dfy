/** What several parts of the model share. */
module Common {

  datatype Option<T> = None | Some(value: T)

  ghost predicate Within<T>(s: seq<T>, u: set<T>) {
    forall i :: 0 <= i < |s| ==> s[i] in u
  }
}
