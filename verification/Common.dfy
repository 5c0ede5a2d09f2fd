/** Small datatypes shared by the models. */
module Common {
  datatype Option<+T> = None | Some(value: T) {
    function Or(default: T): T {
      if Some? then value else default
    }
  }

  ghost predicate NoRepeats<T>(s: seq<T>) {
    forall i, j :: 0 <= i < j < |s| ==> s[i] != s[j]
  }

  type Byte = x: int | 0 <= x < 256
  type Bytes = seq<Byte>
}
