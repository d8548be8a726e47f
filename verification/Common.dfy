/** Shared by all modules: optional values and joined sequences. */
module Common {

  datatype Option<+A> = None | Some(value: A)

  function Flatten<A>(parts: seq<seq<A>>): seq<A> {
    if parts == [] then [] else Flatten(parts[..|parts| - 1]) + parts[|parts| - 1]
  }

  lemma FlattenAppend<A>(parts: seq<seq<A>>, last: seq<A>)
    ensures Flatten(parts + [last]) == Flatten(parts) + last
  {
    assert (parts + [last])[..|parts|] == parts;
  }

  lemma FlattenNothing<A>()
    ensures Flatten<A>([]) == []
  {
  }
}
