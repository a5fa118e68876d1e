/**
 * The edit cycle as a whole: the admin form is filled from the snapshot,
 * its script names the link inputs `links-<i>-text` and `links-<i>-url` for
 * i = 0, 1, …, the form is posted back, and the public page is rendered
 * from what the submit handler stored.
 */
module EditCycle {
  import opened Wrappers
  import opened Json
  import opened KvStore
  import opened Config
  import opened FormKeys
  import opened Links
  import opened PublicPage
  import opened Admin

  /** The schema keys are distinct and none of them is a link key. */
  lemma ParamListShape()
    ensures forall i, j :: 0 <= i < j < |ParamList| ==> ParamList[i] != ParamList[j]
    ensures forall k :: k in ParamList ==> !IsLinkKey(k)
  {
    forall i | 0 <= i < |ParamList| ensures !IsLinkKey(ParamList[i]) {
      assert |ParamList[i]| < |LinkPrefix| || ParamList[i][0] != 'l' || ParamList[i][4] != 's';
    }
  }

  /** The inputs the script names are link keys, and no two share a name. */
  lemma FormShapedKeys(body: Body, links: seq<(string, string)>)
    requires FormShaped(body, links)
    ensures DistinctKeys(body)
    ensures forall j :: 0 <= j < |body| ==> IsLinkKey(body[j].0)
  {
    forall j | 0 <= j < |body| ensures NamesField(body[j].0, j / 2, if j % 2 == 0 then "text" else "url") {
      var i := j / 2;
      assert j == 2 * i || j == 2 * i + 1;
    }
    forall a, b | 0 <= a < b < |body| ensures body[a].0 != body[b].0 {
      assert NamesField(body[a].0, a / 2, if a % 2 == 0 then "text" else "url");
      assert NamesField(body[b].0, b / 2, if b % 2 == 0 then "text" else "url");
    }
  }

  /** Fields that are not link keys followed by link inputs, each group without repeats, have no repeated key. */
  lemma ConcatDistinct(fields: Body, inputs: Body)
    requires DistinctKeys(fields) && DistinctKeys(inputs)
    requires forall j :: 0 <= j < |fields| ==> !IsLinkKey(fields[j].0)
    requires forall j :: 0 <= j < |inputs| ==> IsLinkKey(inputs[j].0)
    ensures DistinctKeys(fields + inputs)
  {
    var body := fields + inputs;
    forall a, b | 0 <= a < b < |body| ensures body[a].0 != body[b].0 {
      if b < |fields| {
        assert body[a] == fields[a] && body[b] == fields[b];
      } else if a >= |fields| {
        assert body[a] == inputs[a - |fields|] && body[b] == inputs[b - |fields|];
      } else {
        assert body[a] == fields[a] && body[b] == inputs[b - |fields|];
      }
    }
  }

  /** Keys that are not link keys in front of a body do not change the rebuilt array. */
  lemma {:induction false} PlainFieldsIgnored(fields: Body, inputs: Body)
    requires forall j :: 0 <= j < |fields| ==> !IsLinkKey(fields[j].0)
    ensures LinkEntries(fields + inputs) == LinkEntries(inputs)
  {
    if inputs == [] {
      assert fields + inputs == fields;
      NoLinkEntries(fields);
    } else {
      var n := |inputs| - 1;
      assert (fields + inputs)[..|fields + inputs| - 1] == fields + inputs[..n];
      PlainFieldsIgnored(fields, inputs[..n]);
    }
  }

  lemma {:induction false} NoLinkEntries(fields: Body)
    requires forall j :: 0 <= j < |fields| ==> !IsLinkKey(fields[j].0)
    ensures LinkEntries(fields) == []
  {
    if fields != [] {
      NoLinkEntries(fields[..|fields| - 1]);
    }
  }

  /**
   * A value its textarea posts back exactly as loaded. The form interpolates
   * each value into its textarea unescaped, so a browser decodes a character
   * reference (`&`), ends the element at `</textarea>`, drops a leading
   * newline, posts line breaks as CRLF and replaces NUL by U+FFFD; a value
   * without `&`, `<`, CR, LF or NUL is posted unchanged.
   */
  predicate PostsVerbatim(v: string)
  {
    forall i :: 0 <= i < |v| ==> v[i] != '&' && v[i] != '<' && v[i] != '\r' && v[i] != '\n' && v[i] != '\0'
  }

  /** Every editable field of the snapshot posts back unchanged. */
  predicate SnapshotPostsVerbatim(data: map<string, string>)
  {
    forall k :: k in ParamList ==> PostsVerbatim(Snapshot(data)[k])
  }

  /** The body the admin form posts when it is sent back as loaded: the textareas, then the link inputs. */
  function EditFormBody(data: map<string, string>, links: seq<(string, string)>): Body
  {
    FormFields(Snapshot(data)) + ClientForm(links)
  }

  /** The editable fields have distinct keys, none a link key, and at least one entry. */
  lemma FormFieldsShape(data: map<string, string>)
    ensures var fields := FormFields(Snapshot(data));
      && fields != []
      && DistinctKeys(fields)
      && forall j :: 0 <= j < |fields| ==> !IsLinkKey(fields[j].0)
  {
    var fields := FormFields(Snapshot(data));
    ParamListShape();
    FieldsOfDistinct(ParamList, Snapshot(data));
    assert "headerText" in ParamList;
    forall j | 0 <= j < |fields| ensures !IsLinkKey(fields[j].0) {
      assert fields[j] in fields;
    }
  }

  lemma {:induction false} FieldsOfDistinct(keys: seq<string>, params: map<string, string>)
    requires forall k :: k in keys ==> k in params
    requires forall i, j :: 0 <= i < j < |keys| ==> keys[i] != keys[j]
    ensures DistinctKeys(FieldsOf(keys, params))
  {
    if keys != [] {
      var n := |keys| - 1;
      var p := keys[..n];
      FieldsOfDistinct(p, params);
      var fs := FieldsOf(p, params);
      assert keys[n] !in p;
      forall e | e in fs ensures e.0 != keys[n] {
      }
      var all := FieldsOf(keys, params);
      if keys[n] != "links" {
        assert all == fs + [(keys[n], params[keys[n]])];
        forall a, b | 0 <= a < b < |all| ensures all[a].0 != all[b].0 {
          if b == |fs| {
            assert all[a] == fs[a] && fs[a] in fs;
          } else {
            assert all[a] == fs[a] && all[b] == fs[b];
          }
        }
      } else {
        assert all == fs;
      }
    }
  }

  /**
   * Posting the admin form back as it was loaded, with the links list the
   * script built, keeps every snapshot field other than `links` and stores
   * the list itself, in order and without holes, under `links`.
   */
  lemma ResubmitKeepsSnapshot(data: map<string, string>, links: seq<(string, string)>, stringify: Json -> string)
    requires SnapshotPostsVerbatim(data)
    requires |links| < ArrayIndexBound
    ensures Reconstruct(EditFormBody(data, links)) == Success(Entries(links))
    ensures var m := ApplyWrites(data, SubmitWrites(EditFormBody(data, links), stringify(LinksJson(Entries(links)))));
      && (forall k :: k in ParamList && k != "links" ==> Snapshot(m)[k] == Snapshot(data)[k])
      && Snapshot(m)["links"] == stringify(LinksJson(Entries(links)))
  {
    var body := EditFormBody(data, links);
    var s := stringify(LinksJson(Entries(links)));
    EditFormBodyShape(data, links);
    SubmitStoreEffect(data, body, s);
    FieldsKept(data, body, ApplyWrites(data, SubmitWrites(body, s)));
  }

  /** The posted-back body has distinct keys, starts with the editable fields and rebuilds the list. */
  lemma EditFormBodyShape(data: map<string, string>, links: seq<(string, string)>)
    requires |links| < ArrayIndexBound
    ensures var body, fields := EditFormBody(data, links), FormFields(Snapshot(data));
      && body != [] && DistinctKeys(body)
      && |fields| <= |body| && (forall j :: 0 <= j < |fields| ==> body[j] == fields[j])
      && Reconstruct(body) == Success(Entries(links))
  {
    var fields, inputs := FormFields(Snapshot(data)), ClientForm(links);
    FormFieldsShape(data);
    ClientFormShaped(links);
    FormShapedKeys(inputs, links);
    ConcatDistinct(fields, inputs);
    PlainFieldsIgnored(fields, inputs);
    ClientFormRoundTrip(links);
  }

  /** A store in which every editable field holds its submitted value keeps the snapshot's fields. */
  lemma FieldsKept(data: map<string, string>, body: Body, m: map<string, string>)
    requires var fields := FormFields(Snapshot(data));
      |fields| <= |body| && forall j :: 0 <= j < |fields| ==> body[j] == fields[j]
    requires forall j :: 0 <= j < |body| && !IsLinkKey(body[j].0) && body[j].0 != "links" ==>
      body[j].0 in m && m[body[j].0] == body[j].1
    ensures forall k :: k in ParamList && k != "links" ==> Snapshot(m)[k] == Snapshot(data)[k]
  {
    var fields := FormFields(Snapshot(data));
    ParamListShape();
    forall k | k in ParamList && k != "links" ensures Snapshot(m)[k] == Snapshot(data)[k] {
      var e :| e in fields && e.0 == k;
      var j :| 0 <= j < |fields| && fields[j] == e;
      assert body[j] == e;
    }
  }

  /**
   * After the admin form is posted back with a links list, the public page
   * (as written, not only the corrected one) shows that list in order: each
   * anchor's url and text are the pair's.
   */
  lemma EditCycleShowsLinks(parse: string -> Option<Json>, stringify: Json -> string, data: map<string, string>, links: seq<(string, string)>)
    requires RoundTrips(parse, stringify)
    requires SnapshotPostsVerbatim(data)
    requires |links| < ArrayIndexBound
    ensures var m := ApplyWrites(data, SubmitWrites(EditFormBody(data, links), stringify(LinksJson(Entries(links)))));
      && HomeLinks(parse, m).Success?
      && |HomeLinks(parse, m).value| == |links|
      && forall i :: 0 <= i < |links| ==>
           HomeLinks(parse, m).value[i] == LinkView(Some(JString(links[i].1)), Some(JString(links[i].0)))
  {
    ResubmitKeepsSnapshot(data, links, stringify);
    EntriesShown(parse, stringify, links);
  }

  /**
   * Whatever non-empty body is submitted, once the reduce succeeds the
   * corrected page shows the link objects of the rebuilt array in index
   * order, and the page as written renders exactly when that array has no hole.
   */
  lemma SubmitThenHome(parse: string -> Option<Json>, stringify: Json -> string, data: map<string, string>, body: Body)
    requires RoundTrips(parse, stringify)
    requires DistinctKeys(body) && body != [] && Reconstruct(body).Success?
    ensures var slots := Reconstruct(body).value;
      var m := ApplyWrites(data, SubmitWrites(body, stringify(LinksJson(slots))));
      && PresentHomeLinks(parse, m) == EntryViews(Present(slots))
      && (HomeLinks(parse, m).Success? <==> None !in slots)
  {
    var slots := Reconstruct(body).value;
    var s := stringify(LinksJson(slots));
    SubmitStoreEffect(data, body, s);
    var m := ApplyWrites(data, SubmitWrites(body, s));
    assert Snapshot(m)["links"] == s;
    PresentLinksRoundTrip(parse, stringify, slots);
    StoredLinksParsed(parse, stringify, slots);
    StoredLinkErrors(slots);
  }

  /**
   * The keys `links-0-text, links-0-url, links-2-text, links-2-url` rebuild
   * three slots, the middle one a hole, in whichever order they arrive.
   */
  lemma GapExample(t0: string, u0: string, t2: string, u2: string)
    requires t0 == "links-0-text" && u0 == "links-0-url" && t2 == "links-2-text" && u2 == "links-2-url"
    ensures Reconstruct([(t0, "A"), (u0, "B"), (t2, "C"), (u2, "D")]) ==
      Success([Some(map["text" := "A", "url" := "B"]), None, Some(map["text" := "C", "url" := "D"])])
    ensures Reconstruct([(t2, "C"), (u2, "D"), (t0, "A"), (u0, "B")]) ==
      Reconstruct([(t0, "A"), (u0, "B"), (t2, "C"), (u2, "D")])
  {
    GapExampleKeys(t0, u0, t2, u2);
    GapIsPadded(t0, u0, t2, u2, "A", "B", "C", "D");
    GapArrivalOrder(t0, u0, t2, u2, "A", "B", "C", "D");
  }

  lemma GapExampleKeys(t0: string, u0: string, t2: string, u2: string)
    requires t0 == "links-0-text" && u0 == "links-0-url" && t2 == "links-2-text" && u2 == "links-2-url"
    ensures NamesField(t0, 0, "text") && NamesField(u0, 0, "url") && NamesField(t2, 2, "text") && NamesField(u2, 2, "url")
  {
    LinkKeyParts(0, "text");
    LinkKeyParts(0, "url");
    LinkKeyParts(2, "text");
    LinkKeyParts(2, "url");
    assert t0 == LinkKey(0, "text") && u0 == LinkKey(0, "url");
    assert t2 == LinkKey(2, "text") && u2 == LinkKey(2, "url");
  }
}
