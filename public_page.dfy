/**
 * The links list of the public page (`GET /`): the stored `links` value is
 * parsed, with an empty list when parsing fails, and every element is
 * rendered as an anchor from its `url` and `text` properties.
 *
 * As written, the page crashes (a TypeError, answered with a 500 response)
 * when the parsed value is not an array, when one of its elements is null,
 * or when a `url` or `text` value has no string conversion; and the submit
 * handler itself stores null for every hole of the array it rebuilds.
 * `RenderLinks` is the page as written; `RenderPresentLinks` is the
 * evidently intended behaviour, which skips the elements that cannot be
 * rendered and treats a value that is not a list as an empty list.
 */
module PublicPage {
  import opened Wrappers
  import opened Json
  import opened KvStore
  import opened Config
  import opened Links

  /** `let links = []; try { links = JSON.parse(params.links) } catch (err) { … }` */
  function PublicLinks(parse: string -> Option<Json>, raw: string): (links: Json)
    ensures parse(raw).None? ==> links == JArray([])
    ensures parse(raw).Some? ==> links == parse(raw).value
  {
    match parse(raw)
    case None => JArray([])
    case Some(j) => j
  }

  /** A property read `item.name`: the field of a parsed object, or undefined. */
  function Property(item: Json, name: string): (p: Option<Json>)
    ensures p.Some? <==> item.JObject? && name in item.fields
  {
    if item.JObject? && name in item.fields then Some(item.fields[name]) else None
  }

  /** What one `<li>` interpolates: `link.url` and `link.text` (None is undefined). */
  datatype LinkView = LinkView(url: Option<Json>, text: Option<Json>)

  /** Reading `url` and `text` of an element; on null the read throws instead. */
  function View(item: Json): LinkView
  {
    LinkView(Property(item, "url"), Property(item, "text"))
  }

  /** The views of a list of elements, in order. */
  function Views(items: seq<Json>): (r: seq<LinkView>)
    ensures |r| == |items|
    ensures forall i :: 0 <= i < |items| ==> r[i] == View(items[i])
  {
    if items == [] then [] else Views(items[..|items| - 1]) + [View(items[|items| - 1])]
  }

  /**
   * `links.map(…)` throws when `links` is not an array, `link.url` throws when
   * `link` is null, and the template conversion `${…}` throws on a value
   * that has no string conversion.
   */
  datatype RenderError = NotAnArray | NullLink | UnprintableField

  /**
   * Whether `${v}` throws. An object converts through its `toString`, then
   * its `valueOf`: a parsed object with its own `toString` key holds a value
   * that cannot be called, and the inherited `valueOf` returns the object
   * itself, so the conversion throws a TypeError. An array converts by
   * joining its elements, each converted in turn. Other values convert.
   */
  predicate StrThrows(v: Json)
  {
    match v
    case JObject(fields) => "toString" in fields
    case JArray(items) => exists i :: 0 <= i < |items| && StrThrows(items[i])
    case _ => false
  }

  /** A property read that is defined and whose conversion throws. */
  predicate Unprintable(p: Option<Json>)
  {
    p.Some? && StrThrows(p.value)
  }

  /** What rendering one element raises: reading from null, or converting `link.url` or `link.text`. */
  function LinkError(item: Json): Option<RenderError>
  {
    if item == JNull then Some(NullLink)
    else if Unprintable(Property(item, "url")) || Unprintable(Property(item, "text")) then Some(UnprintableField)
    else None
  }

  /** The error of the first element whose rendering throws, taking the elements in order as `map` does. */
  function FirstError(items: seq<Json>): (e: Option<RenderError>)
    ensures e.None? <==> forall i :: 0 <= i < |items| ==> LinkError(items[i]).None?
    ensures e.Some? ==> exists i :: (0 <= i < |items| && e == LinkError(items[i]) &&
      forall j :: 0 <= j < i ==> LinkError(items[j]).None?)
  {
    if items == [] then None
    else if LinkError(items[0]).Some? then LinkError(items[0])
    else
      var e := FirstError(items[1..]);
      assert forall i :: 1 <= i < |items| ==> items[i] == items[1..][i - 1];
      if e.Some? then
        var i :| 0 <= i < |items[1..]| && e == LinkError(items[1..][i]) &&
          forall j :: 0 <= j < i ==> LinkError(items[1..][j]).None?;
        assert e == LinkError(items[i + 1]) && forall j :: 0 <= j < i + 1 ==> LinkError(items[j]).None?;
        e
      else e
  }

  /**
   * `links.map(link => <li>…${link.url}…${link.text}…</li>)`, as written: it
   * succeeds exactly on a list none of whose elements throws, and otherwise
   * fails with the error of the first element that does.
   */
  function RenderLinks(links: Json): (r: Result<seq<LinkView>, RenderError>)
    ensures r.Success? <==> links.JArray? && forall i :: 0 <= i < |links.items| ==> LinkError(links.items[i]).None?
    ensures r.Success? ==> r.value == Views(links.items)
    ensures !links.JArray? ==> r == Failure(NotAnArray)
    ensures r.Failure? && links.JArray? ==> exists i :: (0 <= i < |links.items| &&
      LinkError(links.items[i]) == Some(r.error) && forall j :: 0 <= j < i ==> LinkError(links.items[j]).None?)
  {
    if !links.JArray? then Failure(NotAnArray)
    else
      match FirstError(links.items)
      case Some(e) => Failure(e)
      case None => Success(Views(links.items))
  }

  /** The links list of the public page for a store's contents. */
  function HomeLinks(parse: string -> Option<Json>, data: map<string, string>): Result<seq<LinkView>, RenderError>
  {
    RenderLinks(PublicLinks(parse, Snapshot(data)["links"]))
  }

  /** `GET /` up to the links list: fetchData, the parse fallback, the map over the list. */
  method Home(store: Store, parse: string -> Option<Json>) returns (r: Result<seq<LinkView>, RenderError>)
    ensures r == HomeLinks(parse, store.data)
    ensures r.Success? ==> |r.value| <= |PublicLinks(parse, OrEmpty(Lookup(store.data, "links"))).items|
  {
    var params := FetchData(store);
    var links := PublicLinks(parse, params["links"]);
    r := RenderLinks(links);
  }

  /** Unparsable stored text is a recoverable condition: the page shows no links. */
  lemma UnparsableLinksRenderNothing(parse: string -> Option<Json>, data: map<string, string>)
    requires parse(Snapshot(data)["links"]).None?
    ensures HomeLinks(parse, data) == Success([])
  {
  }

  /**
   * With `links` absent or empty the snapshot holds "", which JSON.parse
   * rejects, so the page renders no links rather than failing.
   */
  lemma AbsentLinksRenderNothing(parse: string -> Option<Json>, data: map<string, string>)
    requires parse("").None?
    requires "links" !in data || data["links"] == ""
    ensures HomeLinks(parse, data) == Success([])
  {
    assert Snapshot(data)["links"] == "";
  }

  // ---------------------------------------------------------------------------
  // The stored array and what the page makes of it
  // ---------------------------------------------------------------------------

  /** The link objects of a rebuilt array, holes skipped, in index order. */
  function Present(slots: seq<Slot>): (r: seq<Entry>)
    ensures |r| <= |slots|
    ensures forall e :: e in r ==> Some(e) in slots
    ensures None !in slots ==> |r| == |slots|
  {
    if slots == [] then []
    else
      var n := |slots| - 1;
      Present(slots[..n]) + (if slots[n].Some? then [slots[n].value] else [])
  }

  /** What a stored link object renders as: its `url` and `text` strings, or undefined. */
  function EntryView(e: Entry): LinkView
  {
    LinkView(
      if "url" in e then Some(JString(e["url"])) else None,
      if "text" in e then Some(JString(e["text"])) else None)
  }

  function EntryViews(entries: seq<Entry>): (r: seq<LinkView>)
    ensures |r| == |entries|
    ensures forall i :: 0 <= i < |entries| ==> r[i] == EntryView(entries[i])
  {
    if entries == [] then [] else EntryViews(entries[..|entries| - 1]) + [EntryView(entries[|entries| - 1])]
  }

  /** The serialised form of a stored object reads back as that object's view. */
  lemma SlotView(e: Entry)
    ensures View(SlotJson(Some(e))) == EntryView(e)
  {
    var j := SlotJson(Some(e));
    assert "url" in e ==> "url" in j.fields;
    assert "text" in e ==> "text" in j.fields;
  }

  /** Stringify then parse, as the submit handler and the page do in turn. */
  lemma StoredLinksParsed(parse: string -> Option<Json>, stringify: Json -> string, slots: seq<Slot>)
    requires RoundTrips(parse, stringify)
    ensures PublicLinks(parse, stringify(LinksJson(slots))) == LinksJson(slots)
  {
    assert parse(stringify(LinksJson(slots))) == Some(LinksJson(slots));
  }

  /** A hole of the stored array is a null element of the parsed list. */
  lemma HoleIsNull(slots: seq<Slot>)
    ensures JNull in LinksJson(slots).items <==> None in slots
  {
    var items := LinksJson(slots).items;
    if None in slots {
      var i :| 0 <= i < |slots| && slots[i] == None;
      assert items[i] == JNull;
    }
    if JNull in items {
      var i :| 0 <= i < |items| && items[i] == JNull;
      assert slots[i] == None;
    }
  }

  /** The elements of a serialised array that throw are exactly its holes, and they throw reading from null. */
  lemma StoredLinkErrors(slots: seq<Slot>)
    ensures forall i :: 0 <= i < |slots| ==>
      LinkError(LinksJson(slots).items[i]) == if slots[i].None? then Some(NullLink) else None
  {
    forall i | 0 <= i < |slots| && slots[i].Some?
      ensures LinkError(LinksJson(slots).items[i]).None?
    {
      StoredObjectRenders(slots[i].value);
    }
  }

  /** A stored link object holds strings only, which convert without throwing. */
  lemma StoredObjectRenders(e: Entry)
    ensures LinkError(SlotJson(Some(e))).None?
  {
    var j := SlotJson(Some(e));
    assert "url" in j.fields ==> j.fields["url"].JString?;
    assert "text" in j.fields ==> j.fields["text"].JString?;
  }

  /** As written: any hole in the stored array makes the page throw, reading from null. */
  lemma HoleBreaksHome(parse: string -> Option<Json>, stringify: Json -> string, slots: seq<Slot>)
    requires RoundTrips(parse, stringify)
    requires None in slots
    ensures RenderLinks(PublicLinks(parse, stringify(LinksJson(slots)))) == Failure(NullLink)
  {
    StoredLinksParsed(parse, stringify, slots);
    StoredLinkErrors(slots);
    var i :| 0 <= i < |slots| && slots[i] == None;
    assert LinkError(LinksJson(slots).items[i]).Some?;
  }

  /** As written: a stored `[{"url": {"toString": 0}}]` makes the page throw converting `link.url`. */
  lemma UnprintableUrlBreaksHome(name: string)
    requires name == "toString"
    ensures RenderLinks(JArray([JObject(map["url" := JObject(map[name := JNumber(0)])])])) == Failure(UnprintableField)
  {
    var item := JObject(map["url" := JObject(map[name := JNumber(0)])]);
    assert Property(item, "url") == Some(JObject(map[name := JNumber(0)]));
    assert LinkError(item) == Some(UnprintableField);
    assert [item][0] == item;
  }

  /** As written: a stored JSON value that is not a list makes the public page throw. */
  lemma NonListBreaksHome(parse: string -> Option<Json>, data: map<string, string>)
    requires parse(Snapshot(data)["links"]).Some?
    requires !parse(Snapshot(data)["links"]).value.JArray?
    ensures HomeLinks(parse, data) == Failure(NotAnArray)
  {
  }

  /**
   * As written: one submitted key `links-1-text=a` stores `[null, {"text": "a"}]`,
   * and the next visit to the public page throws.
   */
  lemma GapSubmissionBreaksHome(parse: string -> Option<Json>, stringify: Json -> string, key: string)
    requires RoundTrips(parse, stringify)
    requires key == "links-1-text"
    ensures Reconstruct([(key, "a")]) == Success([None, Some(map["text" := "a"])])
    ensures RenderLinks(PublicLinks(parse, stringify(LinksJson(Reconstruct([(key, "a")]).value)))) == Failure(NullLink)
  {
    GapKeyReconstruct(key);
    HoleBreaksHome(parse, stringify, [None, Some(map["text" := "a"])]);
  }

  /** The single key `links-1-text=a` rebuilds an array whose slot 0 is a hole. */
  lemma GapKeyReconstruct(key: string)
    requires key == "links-1-text"
    ensures Reconstruct([(key, "a")]) == Success([None, Some(map["text" := "a"])])
  {
    GapKeyNames(key);
    SingleKey(key, "a", 1, "text");
    assert seq(1, _ => None) + [Some(map["text" := "a"])] == [None, Some(map["text" := "a"])];
  }

  lemma GapKeyNames(key: string)
    requires key == "links-1-text"
    ensures NamesField(key, 1, "text")
  {
    LinkKeyParts(1, "text");
    assert key == LinkKey(1, "text");
  }

  // ---------------------------------------------------------------------------
  // The corrected page
  // ---------------------------------------------------------------------------

  /** The elements of a list whose rendering does not throw, in order. */
  function Renderable(items: seq<Json>): (r: seq<Json>)
    ensures |r| <= |items|
    ensures forall x :: x in r ==> x in items && LinkError(x).None?
    ensures forall i :: 0 <= i < |items| && LinkError(items[i]).None? ==> items[i] in r
    ensures (forall i :: 0 <= i < |items| ==> LinkError(items[i]).None?) ==> r == items
  {
    if items == [] then []
    else
      var n := |items| - 1;
      assert items[..n] + [items[n]] == items;
      Renderable(items[..n]) + (if LinkError(items[n]).Some? then [] else [items[n]])
  }

  /**
   * The evidently intended list: a value that is not a list shows no links,
   * and elements that cannot be rendered (null among them) are skipped. It
   * agrees with the page as written whenever that one does not throw.
   */
  function RenderPresentLinks(links: Json): (r: seq<LinkView>)
    ensures RenderLinks(links).Success? ==> r == RenderLinks(links).value
    ensures !links.JArray? ==> r == []
    ensures links.JArray? ==> |r| <= |links.items|
  {
    if links.JArray? then Views(Renderable(links.items)) else []
  }

  /** The corrected links list of the public page. */
  function PresentHomeLinks(parse: string -> Option<Json>, data: map<string, string>): seq<LinkView>
  {
    RenderPresentLinks(PublicLinks(parse, Snapshot(data)["links"]))
  }

  /** Skipping what cannot be rendered of a serialised array is skipping the holes of the array. */
  lemma {:induction false} RenderableOfStored(slots: seq<Slot>)
    ensures Views(Renderable(LinksJson(slots).items)) == EntryViews(Present(slots))
  {
    if slots != [] {
      var n := |slots| - 1;
      var p, last := slots[..n], slots[n];
      RenderableOfStored(p);
      var x := SlotJson(last);
      LinksJsonSnoc(slots);
      RenderableSnoc(LinksJson(p).items, x);
      var tail := if LinkError(x).Some? then [] else [x];
      var tailE := if last.Some? then [last.value] else [];
      ViewsAppend(Renderable(LinksJson(p).items), tail);
      EntryViewsAppend(Present(p), tailE);
      if last.Some? {
        StoredObjectRenders(last.value);
        SlotView(last.value);
      }
      assert Views(tail) == EntryViews(tailE);
    }
  }

  lemma RenderableSnoc(items: seq<Json>, x: Json)
    ensures Renderable(items + [x]) == Renderable(items) + (if LinkError(x).Some? then [] else [x])
  {
    assert (items + [x])[..|items|] == items;
  }

  /** Skipping distributes over concatenation, so the kept elements stay in their order. */
  lemma {:induction false} RenderableAppend(a: seq<Json>, b: seq<Json>)
    ensures Renderable(a + b) == Renderable(a) + Renderable(b)
    decreases |b|
  {
    if b == [] {
      assert a + b == a;
    } else {
      var n := |b| - 1;
      var p, x := b[..n], b[n];
      assert a + b == (a + p) + [x];
      assert p + [x] == b;
      RenderableAppend(a, p);
      RenderableSnoc(a + p, x);
      RenderableSnoc(p, x);
      SnocAssoc(Renderable(a), Renderable(p), if LinkError(x).Some? then [] else [x]);
    }
  }

  lemma SnocAssoc(r: seq<Json>, q: seq<Json>, t: seq<Json>)
    ensures (r + q) + t == r + (q + t)
  {
  }

  lemma ViewsAppend(a: seq<Json>, b: seq<Json>)
    ensures Views(a + b) == Views(a) + Views(b)
  {
    assert forall i :: 0 <= i < |a + b| ==> Views(a + b)[i] == (Views(a) + Views(b))[i];
  }

  lemma EntryViewsAppend(a: seq<Entry>, b: seq<Entry>)
    ensures EntryViews(a + b) == EntryViews(a) + EntryViews(b)
  {
    assert forall i :: 0 <= i < |a + b| ==> EntryViews(a + b)[i] == (EntryViews(a) + EntryViews(b))[i];
  }

  /** Whatever array the submit handler stored, the corrected page shows its link objects in index order. */
  lemma PresentLinksRoundTrip(parse: string -> Option<Json>, stringify: Json -> string, slots: seq<Slot>)
    requires RoundTrips(parse, stringify)
    ensures RenderPresentLinks(PublicLinks(parse, stringify(LinksJson(slots)))) == EntryViews(Present(slots))
  {
    StoredLinksParsed(parse, stringify, slots);
    RenderableOfStored(slots);
  }

  /** A list of (text, url) pairs saved without holes shows as those pairs, in order, on the page as written too. */
  lemma EntriesShown(parse: string -> Option<Json>, stringify: Json -> string, links: seq<(string, string)>)
    requires RoundTrips(parse, stringify)
    ensures var shown := RenderLinks(PublicLinks(parse, stringify(LinksJson(Entries(links)))));
      && shown.Success?
      && |shown.value| == |links|
      && forall i :: 0 <= i < |links| ==> shown.value[i] == LinkView(Some(JString(links[i].1)), Some(JString(links[i].0)))
  {
    var slots := Entries(links);
    StoredLinksParsed(parse, stringify, slots);
    StoredLinkErrors(slots);
    forall i | 0 <= i < |links|
      ensures View(LinksJson(slots).items[i]) == LinkView(Some(JString(links[i].1)), Some(JString(links[i].0)))
    {
      SlotView(slots[i].value);
    }
  }
}
