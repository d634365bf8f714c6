/** A value that may be missing. */
module Options {

  datatype Option<+T> = None | Some(value: T)

  /** What is already there, in front of what may still come. */
  function Onto<T>(head: seq<T>, rest: Option<seq<T>>): Option<seq<T>> {
    if rest.None? then None else Some(head + rest.value)
  }

  lemma {:induction false} OntoNothing<T>(rest: Option<seq<T>>)
    ensures Onto([], rest) == rest
  {
    if rest.Some? {
      assert [] + rest.value == rest.value;
    }
  }

  lemma {:induction false} OntoMore<T>(head: seq<T>, next: seq<T>, rest: Option<seq<T>>)
    ensures Onto(head, Onto(next, rest)) == Onto(head + next, rest)
  {
    if rest.Some? {
      assert head + (next + rest.value) == (head + next) + rest.value;
    }
  }
}
