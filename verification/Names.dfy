/** Declarations several modules share. */
module Names {

  datatype Option<+T> = None | Some(value: T)

  /** A model's name. */
  type Name = string

  function Elements<T>(s: seq<T>): set<T> { set x | x in s }

  predicate Distinct(names: seq<Name>) {
    forall i, j :: 0 <= i < j < |names| ==> names[i] != names[j]
  }
}
