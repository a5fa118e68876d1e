/**
 * The admin routes behind the session gate: the edit form (`GET /admin`)
 * and the submit handler (`POST /admin`), which rebuilds the links array
 * from the flat link keys and then writes, for every body entry in turn, the
 * entry itself unless it is a link key, and the serialised array to `links`.
 */
module Admin {
  import opened Wrappers
  import opened Json
  import opened KvStore
  import opened Config
  import opened FormKeys
  import opened Links
  import opened Session

  // ---------------------------------------------------------------------------
  // GET /admin
  // ---------------------------------------------------------------------------

  /** The editable fields among `keys`: every key but `links`, in order, with its value. */
  function FieldsOf(keys: seq<string>, params: map<string, string>): (fields: seq<(string, string)>)
    requires forall k :: k in keys ==> k in params
    ensures |fields| <= |keys|
    ensures forall e :: e in fields ==> e.0 in keys && e.0 != "links" && e.1 == params[e.0]
    ensures forall k :: k in keys && k != "links" ==> exists e :: e in fields && e.0 == k
  {
    if keys == [] then []
    else
      var n := |keys| - 1;
      var k := keys[n];
      assert keys == keys[..n] + [k];
      FieldsOf(keys[..n], params) + (if k == "links" then [] else [(k, params[k])])
  }

  /** The textareas of the edit form: every snapshot key but `links`, in fetchData's order. */
  function FormFields(params: map<string, string>): (fields: seq<(string, string)>)
    requires forall k :: k in ParamList ==> k in params
    ensures forall e :: e in fields ==> e.0 in ParamList && e.0 != "links" && e.1 == params[e.0]
    ensures forall k :: k in ParamList && k != "links" ==> exists e :: e in fields && e.0 == k
  {
    FieldsOf(ParamList, params)
  }

  /** The handler of GET /admin for a snapshot: it renders the form and never throws. */
  function AdminPage(params: map<string, string>): Claims -> HandlerResult
    requires forall k :: k in ParamList ==> k in params
  {
    _ => Returned(AdminForm(FormFields(params)))
  }

  /** GET /admin behind the gate: the edit form filled from the snapshot. */
  method GetAdmin(store: Store, token: Option<string>, verify: (string, int) -> Option<Claims>, now: int) returns (r: Response)
    ensures r == Guarded(token, verify, now, AdminPage(Snapshot(store.data))).response
    ensures r.AdminForm? ==> Authenticate(token, verify, now).Some?
  {
    var claims := Authenticate(token, verify, now);
    if claims.None? {
      return Redirect(LoginPath, None);
    }
    var params := FetchData(store);
    r := AdminForm(FormFields(params));
  }

  // ---------------------------------------------------------------------------
  // POST /admin
  // ---------------------------------------------------------------------------

  /**
   * The puts of the write loop, oldest first, given the serialised array:
   * per body entry, the entry itself unless its key is a link key, then `links`.
   */
  function SubmitWrites(body: Body, serialised: string): (writes: seq<(string, string)>)
    ensures |writes| >= |body|
  {
    if body == [] then []
    else
      var n := |body| - 1;
      SubmitWrites(body[..n], serialised) + (if IsLinkKey(body[n].0) then [] else [body[n]]) + [("links", serialised)]
  }

  /**
   * Every put writes either the serialised array to `links` or an entry of the body that is not a link key,
   * and the last put writes `links`.
   */
  lemma {:induction false} SubmitWritesOnly(body: Body, s: string)
    ensures forall w :: w in SubmitWrites(body, s) ==> w == ("links", s) || (w in body && !IsLinkKey(w.0))
    ensures body != [] ==> SubmitWrites(body, s)[|SubmitWrites(body, s)| - 1] == ("links", s)
  {
    if body != [] {
      var n := |body| - 1;
      SubmitWritesOnly(body[..n], s);
      forall w | w in body[..n] ensures w in body {
        var j :| 0 <= j < n && body[..n][j] == w;
        assert body[j] == w;
      }
    }
  }

  lemma SubmitWritesStep(body: Body, i: nat, s: string)
    requires i < |body|
    ensures SubmitWrites(body[..i + 1], s) ==
      SubmitWrites(body[..i], s) + (if IsLinkKey(body[i].0) then [] else [body[i]]) + [("links", s)]
  {
    assert body[..i + 1][..i] == body[..i];
  }

  /** How the submit handler ends: it throws exactly when the reduce throws, and otherwise redirects to /admin. */
  function SubmitResult(body: Body): (r: HandlerResult)
    ensures r == Threw <==> Throws(body)
    ensures r.Returned? ==> r.response == Redirect(AdminPath, None)
  {
    ReconstructFails(body);
    if Reconstruct(body).Failure? then Threw else Returned(Redirect(AdminPath, None))
  }

  lemma ApplyWritesSnoc(data: map<string, string>, writes: seq<(string, string)>, w: (string, string))
    ensures ApplyWrites(data, writes + [w]) == ApplyWrites(data, writes)[w.0 := w.1]
  {
    assert (writes + [w])[..|writes|] == writes;
  }

  /** Once a reduce has thrown, a longer reduce over the same entries throws too. */
  lemma {:induction false} FoldFailureStays(entries: Body, i: nat)
    requires i <= |entries|
    requires Fold(entries[..i]).Failure?
    ensures Fold(entries).Failure?
  {
    if i < |entries| {
      var n := |entries| - 1;
      assert entries[..n][..i] == entries[..i];
      FoldFailureStays(entries[..n], i);
    } else {
      assert entries[..i] == entries;
    }
  }

  /** `Object.keys(body).filter(k => k.startsWith("links-"))`, with the values. */
  method FilterLinkKeys(body: Body) returns (linkKeys: Body)
    ensures linkKeys == LinkEntries(body)
  {
    linkKeys := [];
    for i := 0 to |body|
      invariant linkKeys == LinkEntries(body[..i])
    {
      assert body[..i + 1][..i] == body[..i];
      if IsLinkKey(body[i].0) {
        linkKeys := linkKeys + [body[i]];
      }
    }
    assert body[..|body|] == body;
  }

  /** `linkKeys.reduce(…, [])`: the callback runs once per key until one throws. */
  method ReduceLinks(linkKeys: Body) returns (r: Result<seq<Slot>, ReduceError>)
    ensures r == Fold(linkKeys)
  {
    var acc: seq<Slot> := [];
    for i := 0 to |linkKeys|
      invariant Fold(linkKeys[..i]) == Success(acc)
    {
      assert linkKeys[..i + 1][..i] == linkKeys[..i];
      var next := Step(acc, linkKeys[i].0, linkKeys[i].1);
      if next.Failure? {
        FoldFailureStays(linkKeys, i + 1);
        assert Fold(linkKeys).error == LengthAssignment == next.error;
        return Failure(next.error);
      }
      acc := next.value;
    }
    assert linkKeys[..|linkKeys|] == linkKeys;
    r := Success(acc);
  }

  /** `for (const [key, value] of Object.entries(body)) { … }`: the puts of the submit handler. */
  method WriteLoop(store: Store, body: Body, links: seq<Slot>, stringify: Json -> string)
    modifies store
    ensures store.Writes == old(store.Writes) + SubmitWrites(body, stringify(LinksJson(links)))
    ensures store.data == ApplyWrites(old(store.data), SubmitWrites(body, stringify(LinksJson(links))))
  {
    var s := stringify(LinksJson(links));
    ghost var done: seq<(string, string)> := [];
    for i := 0 to |body|
      invariant done == SubmitWrites(body[..i], s)
      invariant store.Writes == old(store.Writes) + done
      invariant store.data == ApplyWrites(old(store.data), done)
    {
      SubmitWritesStep(body, i, s);
      var (key, value) := body[i];
      if !IsLinkKey(key) {
        store.Put(key, value);
        ApplyWritesSnoc(old(store.data), done, (key, value));
        done := done + [(key, value)];
      }
      store.Put("links", s);
      ApplyWritesSnoc(old(store.data), done, ("links", s));
      done := done + [("links", s)];
    }
    assert body[..|body|] == body;
  }

  /** The submit handler: the filter, the reduce, then the write loop. */
  method Submit(store: Store, body: Body, stringify: Json -> string) returns (result: HandlerResult)
    modifies store
    ensures result == SubmitResult(body)
    ensures Reconstruct(body).Failure? ==> store.data == old(store.data) && store.Writes == old(store.Writes)
    ensures Reconstruct(body).Success? ==>
      var writes := SubmitWrites(body, stringify(LinksJson(Reconstruct(body).value)));
      store.Writes == old(store.Writes) + writes && store.data == ApplyWrites(old(store.data), writes)
  {
    var linkKeys := FilterLinkKeys(body);
    var links := ReduceLinks(linkKeys);
    if links.Failure? {
      return Threw;
    }
    WriteLoop(store, body, links.value, stringify);
    result := Returned(Redirect(AdminPath, None));
  }

  /** POST /admin: the gate, then the submit handler once. */
  method PostAdmin(store: Store, token: Option<string>, verify: (string, int) -> Option<Claims>, now: int, body: Body, stringify: Json -> string)
    returns (r: Response)
    modifies store
    ensures r == Guarded(token, verify, now, _ => SubmitResult(body)).response
    ensures Authenticate(token, verify, now).None? || Reconstruct(body).Failure? ==>
      store.data == old(store.data) && store.Writes == old(store.Writes)
    ensures Authenticate(token, verify, now).Some? && Reconstruct(body).Success? ==>
      store.data == ApplyWrites(old(store.data), SubmitWrites(body, stringify(LinksJson(Reconstruct(body).value))))
  {
    var claims := Authenticate(token, verify, now);
    if claims.None? {
      return Redirect(LoginPath, None);
    }
    var handled := Submit(store, body, stringify);
    r := RunHandler(handled).response;
  }

  // ---------------------------------------------------------------------------
  // What a submission does to the store
  // ---------------------------------------------------------------------------

  /** Some entry of the body has key k. */
  ghost predicate InBody(body: Body, k: string)
  {
    exists j :: 0 <= j < |body| && body[j].0 == k
  }

  /** A prefix of a body with distinct keys has distinct keys. */
  lemma DistinctPrefix(body: Body)
    requires body != [] && DistinctKeys(body)
    ensures DistinctKeys(body[..|body| - 1])
  {
    var p := body[..|body| - 1];
    forall i, j | 0 <= i < j < |p| ensures p[i].0 != p[j].0 {
      assert p[i] == body[i] && p[j] == body[j];
    }
  }

  /** The store after the write loop, entry by entry: the entry unless it is a link key, then `links`. */
  function StoreAfter(data: map<string, string>, body: Body, s: string): map<string, string>
  {
    if body == [] then data
    else
      var n := |body| - 1;
      var m0 := StoreAfter(data, body[..n], s);
      (if IsLinkKey(body[n].0) then m0 else m0[body[n].0 := body[n].1])["links" := s]
  }

  /** Replaying the puts of the write loop gives that store. */
  lemma {:induction false} StoreAfterWrites(data: map<string, string>, body: Body, s: string)
    ensures ApplyWrites(data, SubmitWrites(body, s)) == StoreAfter(data, body, s)
  {
    if body != [] {
      var n := |body| - 1;
      var p, e := body[..n], body[n];
      StoreAfterWrites(data, p, s);
      var w0 := SubmitWrites(p, s);
      var mid := w0 + (if IsLinkKey(e.0) then [] else [e]);
      if !IsLinkKey(e.0) {
        ApplyWritesSnoc(data, w0, e);
      } else {
        assert mid == w0;
      }
      ApplyWritesSnoc(data, mid, ("links", s));
    }
  }

  /**
   * The store after a submission whose rebuilt array serialises to s:
   * `links` holds s if the body had any entry and is untouched otherwise;
   * every other key of the body that is not a link key holds its submitted
   * value; link keys and keys outside the body keep their old values.
   */
  lemma {:induction false} SubmitStoreEffect(data: map<string, string>, body: Body, s: string)
    requires DistinctKeys(body)
    ensures var m := ApplyWrites(data, SubmitWrites(body, s));
      && (body != [] ==> "links" in m && m["links"] == s)
      && (body == [] ==> m == data)
      && (forall j :: 0 <= j < |body| && !IsLinkKey(body[j].0) && body[j].0 != "links" ==>
            body[j].0 in m && m[body[j].0] == body[j].1)
      && (forall k :: k != "links" && (IsLinkKey(k) || !InBody(body, k)) ==> Lookup(m, k) == Lookup(data, k))
  {
    StoreAfterWrites(data, body, s);
    StoreAfterEffect(data, body, s);
  }

  lemma {:induction false} StoreAfterEffect(data: map<string, string>, body: Body, s: string)
    requires DistinctKeys(body)
    ensures var m := StoreAfter(data, body, s);
      && (body != [] ==> "links" in m && m["links"] == s)
      && (body == [] ==> m == data)
      && (forall j :: 0 <= j < |body| && !IsLinkKey(body[j].0) && body[j].0 != "links" ==>
            body[j].0 in m && m[body[j].0] == body[j].1)
      && (forall k :: k != "links" && (IsLinkKey(k) || !InBody(body, k)) ==> Lookup(m, k) == Lookup(data, k))
  {
    if body != [] {
      var n := |body| - 1;
      DistinctPrefix(body);
      StoreAfterEffect(data, body[..n], s);
      var m0 := StoreAfter(data, body[..n], s);
      SubmittedValues(body, m0, StoreAfter(data, body, s), s);
      UntouchedKeys(data, body, m0, StoreAfter(data, body, s), s);
    }
  }

  lemma SubmittedValues(body: Body, m0: map<string, string>, m: map<string, string>, s: string)
    requires body != [] && DistinctKeys(body)
    requires var p := body[..|body| - 1];
      forall j :: 0 <= j < |p| && !IsLinkKey(p[j].0) && p[j].0 != "links" ==> p[j].0 in m0 && m0[p[j].0] == p[j].1
    requires var e := body[|body| - 1];
      m == (if IsLinkKey(e.0) then m0 else m0[e.0 := e.1])["links" := s]
    ensures forall j :: 0 <= j < |body| && !IsLinkKey(body[j].0) && body[j].0 != "links" ==> body[j].0 in m && m[body[j].0] == body[j].1
  {
    var n := |body| - 1;
    var p, e := body[..n], body[n];
    forall j | 0 <= j < |body| && !IsLinkKey(body[j].0) && body[j].0 != "links"
      ensures body[j].0 in m && m[body[j].0] == body[j].1
    {
      if j < n {
        assert body[j] == p[j];
        assert body[j].0 != e.0;
      }
    }
  }

  lemma UntouchedKeys(data: map<string, string>, body: Body, m0: map<string, string>, m: map<string, string>, s: string)
    requires body != []
    requires forall k :: k != "links" && (IsLinkKey(k) || !InBody(body[..|body| - 1], k)) ==> Lookup(m0, k) == Lookup(data, k)
    requires var e := body[|body| - 1];
      m == (if IsLinkKey(e.0) then m0 else m0[e.0 := e.1])["links" := s]
    ensures forall k :: k != "links" && (IsLinkKey(k) || !InBody(body, k)) ==> Lookup(m, k) == Lookup(data, k)
  {
    var n := |body| - 1;
    var p, e := body[..n], body[n];
    forall k | k != "links" && (IsLinkKey(k) || !InBody(body, k))
      ensures Lookup(m, k) == Lookup(data, k)
    {
      if !IsLinkKey(k) {
        assert e.0 != k by { assert body[n].0 == e.0; }
      }
      assert Lookup(m, k) == Lookup(m0, k);
    }
  }

  lemma InBodyLast(body: Body, k: string)
    requires body != []
    ensures InBody(body, k) <==> InBody(body[..|body| - 1], k) || body[|body| - 1].0 == k
  {
    var n := |body| - 1;
    if InBody(body, k) && body[n].0 != k {
      var j :| 0 <= j < |body| && body[j].0 == k;
      assert body[..n][j].0 == k;
    }
    if InBody(body[..n], k) {
      var j :| 0 <= j < n && body[..n][j].0 == k;
      assert body[j].0 == k;
    }
  }

  /** How many puts write key k. */
  function WritesTo(writes: seq<(string, string)>, k: string): nat
  {
    if writes == [] then 0
    else WritesTo(writes[..|writes| - 1], k) + (if writes[|writes| - 1].0 == k then 1 else 0)
  }

  lemma WritesToAppend(a: seq<(string, string)>, b: seq<(string, string)>, k: string)
    ensures WritesTo(a + b, k) == WritesTo(a, k) + WritesTo(b, k)
    decreases |b|
  {
    if b != [] {
      var n := |b| - 1;
      assert (a + b)[..|a + b| - 1] == a + b[..n];
      WritesToAppend(a, b[..n], k);
    } else {
      assert a + b == a;
    }
  }

  /**
   * `links` is written once per body entry (and once more when the body has
   * a plain field named `links`); `SubmitWritesOnly` shows the array write comes last.
   */
  lemma {:induction false} LinksWrittenPerEntry(body: Body, s: string)
    requires DistinctKeys(body)
    ensures WritesTo(SubmitWrites(body, s), "links") == |body| + (if InBody(body, "links") then 1 else 0)
  {
    if body != [] {
      var n := |body| - 1;
      var p, e := body[..n], body[n];
      DistinctPrefix(body);
      LinksWrittenPerEntry(p, s);
      var w0 := SubmitWrites(p, s);
      var own: seq<(string, string)> := if IsLinkKey(e.0) then [] else [e];
      WritesToAppend(w0, own, "links");
      WritesToAppend(w0 + own, [("links", s)], "links");
      assert WritesTo([("links", s)], "links") == 1 by { assert [("links", s)][..0] == []; }
      assert WritesTo(own, "links") == (if e.0 == "links" then 1 else 0) by {
        assert !IsLinkKey("links");
        assert own != [] ==> own[..0] == [];
      }
      InBodyLast(body, "links");
      if e.0 == "links" {
        assert !InBody(p, "links");
      }
    }
  }
}
