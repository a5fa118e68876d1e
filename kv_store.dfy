/**
 * The key-value namespace the worker is bound to (`c.env.KV`). Reads and
 * writes are sequential map operations; the ghost `Writes` log records every
 * put in order so that callers can state how often a key was rewritten.
 */
module KvStore {
  import opened Wrappers

  /** KV.get: the stored string, or null (None) when the key is absent. */
  function Lookup(data: map<string, string>, key: string): (v: Option<string>)
    ensures v.Some? <==> key in data
    ensures v.Some? ==> v.value == data[key]
  {
    if key in data then Some(data[key]) else None
  }

  /** Replays a sequence of puts, oldest first, over a store's contents. */
  function ApplyWrites(data: map<string, string>, writes: seq<(string, string)>): map<string, string>
  {
    if writes == [] then data
    else
      var last := writes[|writes| - 1];
      ApplyWrites(data, writes[..|writes| - 1])[last.0 := last.1]
  }

  class Store {
    var data: map<string, string>
    ghost var Writes: seq<(string, string)>

    constructor (initial: map<string, string>)
      ensures data == initial && Writes == []
    {
      data := initial;
      Writes := [];
    }

    method Get(key: string) returns (v: Option<string>)
      ensures v.Some? <==> key in data
      ensures v.Some? ==> v.value == data[key]
    {
      v := if key in data then Some(data[key]) else None;
    }

    method Put(key: string, value: string)
      modifies this
      ensures data == old(data)[key := value]
      ensures Writes == old(Writes) + [(key, value)]
    {
      data := data[key := value];
      Writes := Writes + [(key, value)];
    }
  }
}
