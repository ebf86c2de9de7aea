/** Small helpers shared by the modules. */
module Common {

  datatype Option<+T> = None | Some(value: T)

  function Elements(s: seq<string>): set<string> {
    set n | n in s
  }

  ghost predicate NoRepeats(s: seq<string>) {
    forall i, j :: 0 <= i < j < |s| ==> s[i] != s[j]
  }
}
