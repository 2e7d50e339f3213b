/** A producer of observables: a name-keyed collection of outputs. */
module Data {

  /** An output, reduced to the name it was created with. */
  class Output {
    const name: string

    constructor (name: string)
      ensures this.name == name
    {
      this.name := name;
    }
  }

  /** Insertion into an associative container: the entry is added only when
      the key is absent; an existing entry is never overwritten. */
  function InsertIfAbsent<K(!new), V>(m: map<K, V>, k: K, v: V): (r: map<K, V>)
    ensures k in r
    ensures k in m ==> r == m
    ensures k !in m ==> r[k] == v && |r| == |m| + 1
    ensures forall j :: j != k ==> (j in r <==> j in m) && (j in m ==> r[j] == m[j])
  {
    if k in m then m
    else
      assert (m[k := v]).Keys == m.Keys + {k};
      m[k := v]
  }

  /** The first insert under a key wins: a second insert under it is
      ignored. */
  lemma InsertIfAbsentFirstWins<K(!new), V>(m: map<K, V>, k: K, v1: V, v2: V)
    ensures InsertIfAbsent(InsertIfAbsent(m, k, v1), k, v2) == InsertIfAbsent(m, k, v1)
    ensures InsertIfAbsent(m, k, v1)[k] == if k in m then m[k] else v1
  {
  }

  class Producer {
    /** The observables in this shard of the simulation, by name. */
    var outputs: map<string, Output>

    constructor ()
      ensures outputs == map[]
    {
      outputs := map[];
    }

    /** Creates a new output named `name` and registers it unless an output
        of that name is already registered; the new output is returned
        either way. */
    method CreateOutput(name: string) returns (o: Output)
      modifies this
      ensures fresh(o) && o.name == name
      ensures outputs == InsertIfAbsent(old(outputs), name, o)
      ensures name in old(outputs) ==> outputs[name] == old(outputs)[name] && outputs[name] != o
      ensures name !in old(outputs) ==> outputs[name] == o && |outputs| == |old(outputs)| + 1
    {
      o := new Output(name);
      outputs := InsertIfAbsent(outputs, name, o);
    }
  }
}
