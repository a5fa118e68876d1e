/**
 * The configuration snapshot: `fetchData` reads the twelve schema keys one
 * after another and substitutes "" for a value that is absent or empty.
 */
module Config {
  import opened Wrappers
  import opened KvStore

  /** The schema keys, in the order fetchData reads them. */
  const ParamList: seq<string> := [
    "headerText", "headerImg", "headerDescription", "links", "background", "seoTitle",
    "seoDescription", "seoKeywords", "favicon", "linkStyle", "containerStyle", "headInsert"
  ]

  /** `value || ""`: null and "" are falsy and become "", any other string is kept. */
  function OrEmpty(v: Option<string>): (s: string)
    ensures s == "" <==> v.None? || v.value == ""
    ensures s != "" ==> v == Some(s)
  {
    match v
    case None => ""
    case Some(x) => x
  }

  /** The snapshot fetchData returns for a store's contents. */
  function Snapshot(data: map<string, string>): (s: map<string, string>)
    ensures s.Keys == set k | k in ParamList
    ensures forall k :: k in s ==> (s[k] == "" <==> k !in data || data[k] == "")
    ensures forall k :: k in s && s[k] != "" ==> k in data && s[k] == data[k]
  {
    map k | k in ParamList :: OrEmpty(Lookup(data, k))
  }

  /** fetchData: one read per schema key, never a write. */
  method FetchData(store: Store) returns (params: map<string, string>)
    ensures params.Keys == set k | k in ParamList
    ensures forall k :: k in params ==> (params[k] == "" <==> k !in store.data || store.data[k] == "")
    ensures forall k :: k in params && params[k] != "" ==> k in store.data && params[k] == store.data[k]
    ensures params == Snapshot(store.data)
  {
    params := map[];
    for i := 0 to |ParamList|
      invariant params.Keys == set k | k in ParamList[..i]
      invariant forall k :: k in params ==> params[k] == OrEmpty(Lookup(store.data, k))
    {
      var value := store.Get(ParamList[i]);
      params := params[ParamList[i] := OrEmpty(value)];
      assert ParamList[..i + 1] == ParamList[..i] + [ParamList[i]];
    }
    assert ParamList[..|ParamList|] == ParamList;
  }

  /** With nothing stored, every schema key reads as "" and no key is missing. */
  lemma EmptyStoreSnapshot()
    ensures Snapshot(map[]).Keys == set k | k in ParamList
    ensures forall k :: k in Snapshot(map[]) ==> Snapshot(map[])[k] == ""
  {
  }

  /** The snapshot depends only on the schema keys: other stored keys (such as the credentials) never leak into it. */
  lemma SnapshotReadsOnlySchema(a: map<string, string>, b: map<string, string>)
    requires forall k :: k in ParamList ==> Lookup(a, k) == Lookup(b, k)
    ensures Snapshot(a) == Snapshot(b)
  {
  }
}
