/**
 * Reconstruction of the links array from the flat keys of an admin
 * submission. The accumulator of the source's `reduce` is a JavaScript array:
 * a key whose index is an array index fills that slot (growing the array and
 * leaving holes below it), a key with any other index only adds a named
 * property that JSON.stringify later drops, and the index "length" makes the
 * assignment throw.
 */
module Links {
  import opened Wrappers
  import opened FormKeys
  import opened Json

  /** The parsed form body, in the order Object.entries enumerates it. */
  type Body = seq<(string, string)>

  /** The own fields of one reconstructed link object. */
  type Entry = map<string, string>

  /** An element of the accumulator array: a hole, or a link object. */
  type Slot = Option<Entry>

  /** Assigning an object to `acc.length` throws (a RangeError, or a TypeError once the array is non-empty). */
  datatype ReduceError = LengthAssignment

  /** A parsed body is an object: no key occurs twice. */
  predicate DistinctKeys(body: Body)
  {
    forall i, j :: 0 <= i < j < |body| ==> body[i].0 != body[j].0
  }

  /** Object.keys(body).filter(k => k.startsWith("links-")), paired with their values. */
  function LinkEntries(body: Body): (entries: Body)
    ensures forall e :: e in entries ==> e in body && IsLinkKey(e.0)
    ensures |entries| <= |body|
  {
    if body == [] then []
    else
      var last := body[|body| - 1];
      LinkEntries(body[..|body| - 1]) + (if IsLinkKey(last.0) then [last] else [])
  }

  /** The filter keeps every link-key entry of the body. */
  lemma {:induction false} LinkEntriesComplete(body: Body)
    ensures forall j :: 0 <= j < |body| && IsLinkKey(body[j].0) ==> body[j] in LinkEntries(body)
  {
    if body != [] {
      var n := |body| - 1;
      LinkEntriesComplete(body[..n]);
      forall j | 0 <= j < n && IsLinkKey(body[j].0) ensures body[j] in LinkEntries(body) {
        assert body[..n][j] == body[j];
      }
    }
  }

  /** The filter keeps the order of the body: filtering a concatenation concatenates the filtered parts. */
  lemma {:induction false} LinkEntriesAppend(a: Body, b: Body)
    ensures LinkEntries(a + b) == LinkEntries(a) + LinkEntries(b)
  {
    if b == [] {
      assert a + b == a;
    } else {
      var n := |b| - 1;
      assert (a + b)[..|a + b| - 1] == a + b[..n];
      LinkEntriesAppend(a, b[..n]);
    }
  }

  /** The array slot a key names, if its index is an array index. */
  function SlotOf(key: string): Option<nat>
  {
    ArrayIndex(IndexText(key))
  }

  /** `acc[index][field] = value` on a plain object: assigning a string to __proto__ is ignored. */
  function Assign(entry: Entry, field: string, value: string): Entry
  {
    if field == "__proto__" then entry else entry[field := value]
  }

  /** Storing an object at array index i, which extends the array with holes when i is past its end. */
  function SetSlot(acc: seq<Slot>, i: nat, e: Entry): (r: seq<Slot>)
    ensures |r| == if i < |acc| then |acc| else i + 1
    ensures r[i] == Some(e)
    ensures forall j :: 0 <= j < |r| && j != i ==> r[j] == if j < |acc| then acc[j] else None
  {
    if i < |acc| then acc[i := Some(e)] else acc + seq(i - |acc|, _ => None) + [Some(e)]
  }

  /** One call of the reduce callback. */
  function Step(acc: seq<Slot>, key: string, value: string): Result<seq<Slot>, ReduceError>
  {
    if IndexText(key) == "length" then Failure(LengthAssignment)
    else
      match SlotOf(key)
      case None => Success(acc)
      case Some(i) =>
        var entry := if i < |acc| && acc[i].Some? then acc[i].value else map[];
        Success(SetSlot(acc, i, Assign(entry, FieldName(key), value)))
  }

  /**
   * One call of the callback: the index "length" throws; an index that is
   * not an array index leaves the array as it was; array index i makes slot
   * i an object that gains the submitted field and keeps its other fields,
   * grows the array to i + 1 with holes when i is past its end, and leaves
   * every other slot as it was.
   */
  lemma StepEffect(acc: seq<Slot>, key: string, value: string)
    ensures var r := Step(acc, key, value);
      && (r.Failure? <==> IndexText(key) == "length")
      && (r.Success? && SlotOf(key).None? ==> r.value == acc)
      && (r.Success? && SlotOf(key).Some? ==>
           var i, f := SlotOf(key).value, FieldName(key);
           && |r.value| == (if i < |acc| then |acc| else i + 1)
           && r.value[i].Some?
           && (f != "__proto__" ==> f in r.value[i].value && r.value[i].value[f] == value)
           && (f == "__proto__" ==> r.value[i].value.Keys == (if i < |acc| && acc[i].Some? then acc[i].value.Keys else {}))
           && (i < |acc| && acc[i].Some? ==> forall g :: g in acc[i].value && g != f ==>
                 g in r.value[i].value && r.value[i].value[g] == acc[i].value[g])
           && forall j :: 0 <= j < |r.value| && j != i ==> r.value[j] == if j < |acc| then acc[j] else None)
  {
  }

  /** `entries.reduce(callback, [])`; a throw in any call ends the fold. */
  function Fold(entries: Body): (r: Result<seq<Slot>, ReduceError>)
  {
    if entries == [] then Success([])
    else
      var n := |entries| - 1;
      match Fold(entries[..n])
      case Failure(e) => Failure(e)
      case Success(acc) => Step(acc, entries[n].0, entries[n].1)
  }

  /** The links array rebuilt from a submitted body. */
  function Reconstruct(body: Body): Result<seq<Slot>, ReduceError>
  {
    Fold(LinkEntries(body))
  }

  /** The value JSON.stringify serialises: holes become null, named properties are not array elements. */
  function LinksJson(links: seq<Slot>): (j: Json)
    ensures j.JArray? && |j.items| == |links|
    ensures forall i :: 0 <= i < |links| ==> (j.items[i] == JNull <==> links[i].None?)
  {
    JArray(seq(|links|, i requires 0 <= i < |links| => SlotJson(links[i])))
  }

  /** Serialising an array is serialising its prefix and then its last slot. */
  lemma LinksJsonSnoc(links: seq<Slot>)
    requires links != []
    ensures LinksJson(links).items == LinksJson(links[..|links| - 1]).items + [SlotJson(links[|links| - 1])]
  {
    var a, b := LinksJson(links).items, LinksJson(links[..|links| - 1]).items + [SlotJson(links[|links| - 1])];
    forall i | 0 <= i < |a| ensures a[i] == b[i] {
      if i < |links| - 1 {
        assert b[i] == SlotJson(links[..|links| - 1][i]);
      }
    }
  }

  /** A hole serialises as null, a link object as an object with the same fields, all strings. */
  function SlotJson(slot: Slot): (j: Json)
    ensures j == JNull <==> slot.None?
    ensures slot.Some? ==> (j.JObject? && j.fields.Keys == slot.value.Keys &&
      forall f :: f in j.fields ==> j.fields[f] == JString(slot.value[f]))
  {
    match slot
    case None => JNull
    case Some(e) => JObject(map f | f in e :: JString(e[f]))
  }

  // ---------------------------------------------------------------------------
  // What the reconstruction means
  // ---------------------------------------------------------------------------

  /** `key` is a link key whose index is array index i. */
  ghost predicate Names(key: string, i: nat)
  {
    IsLinkKey(key) && SlotOf(key) == Some(i)
  }

  /** `key` is a link key for field f of slot i. */
  ghost predicate NamesField(key: string, i: nat, f: string)
  {
    Names(key, i) && FieldName(key) == f
  }

  /** Some link key of the body has the index "length". */
  ghost predicate Throws(body: Body)
  {
    exists j :: 0 <= j < |body| && IsLinkKey(body[j].0) && IndexText(body[j].0) == "length"
  }

  /** v is the value of the last key of the body that names field f of slot i. */
  ghost predicate LastAssigned(body: Body, i: nat, f: string, v: string)
  {
    exists j :: 0 <= j < |body| && NamesField(body[j].0, i, f) && body[j].1 == v &&
      forall k :: j < k < |body| ==> !NamesField(body[k].0, i, f)
  }

  /** Reconstructing a body is reconstructing its prefix and then folding in its last entry. */
  lemma ReconstructSnoc(body: Body)
    requires body != []
    ensures var p, last := body[..|body| - 1], body[|body| - 1];
      Reconstruct(body) ==
        if !IsLinkKey(last.0) then Reconstruct(p)
        else match Reconstruct(p)
          case Failure(e) => Failure(e)
          case Success(acc) => Step(acc, last.0, last.1)
  {
    var p, last := body[..|body| - 1], body[|body| - 1];
    if IsLinkKey(last.0) {
      var entries := LinkEntries(p) + [last];
      assert entries[..|entries| - 1] == LinkEntries(p);
    } else {
      assert LinkEntries(p) + [] == LinkEntries(p);
    }
  }

  lemma PrefixIndex(body: Body, j: int)
    requires 0 <= j < |body| - 1
    ensures body[..|body| - 1][j] == body[j]
  {
  }

  /** Without a "length" index, the last entry's index is not "length" either. */
  lemma NotLengthAtEnd(body: Body)
    requires body != [] && !Throws(body)
    ensures IsLinkKey(body[|body| - 1].0) ==> IndexText(body[|body| - 1].0) != "length"
  {
    var j := |body| - 1;
    assert !(IsLinkKey(body[j].0) && IndexText(body[j].0) == "length");
  }

  /** How the last entry of a body without a "length" index changes the array. */
  lemma StepSets(body: Body)
    requires body != [] && !Throws(body)
    requires Reconstruct(body[..|body| - 1]).Success?
    ensures var p, last := body[..|body| - 1], body[|body| - 1];
      var acc := Reconstruct(p).value;
      Reconstruct(body) ==
        if !IsLinkKey(last.0) || SlotOf(last.0).None? then Success(acc)
        else
          var i := SlotOf(last.0).value;
          var entry := if i < |acc| && acc[i].Some? then acc[i].value else map[];
          Success(SetSlot(acc, i, Assign(entry, FieldName(last.0), last.1)))
  {
    ReconstructSnoc(body);
    NotLengthAtEnd(body);
  }

  /** The reduce throws exactly when some link key has the index "length". */
  lemma {:induction false} ReconstructFails(body: Body)
    ensures Reconstruct(body).Failure? <==> Throws(body)
  {
    if body != [] {
      var p, last := body[..|body| - 1], body[|body| - 1];
      ReconstructSnoc(body);
      ReconstructFails(p);
      if Throws(p) {
        var j :| 0 <= j < |p| && IsLinkKey(p[j].0) && IndexText(p[j].0) == "length";
        PrefixIndex(body, j);
      }
      if Throws(body) && !Throws(p) {
        var j :| 0 <= j < |body| && IsLinkKey(body[j].0) && IndexText(body[j].0) == "length";
        if j < |p| { PrefixIndex(body, j); }
      }
    }
  }

  /** Some link key of the body names slot i. */
  ghost predicate Named(body: Body, i: nat)
  {
    exists j :: 0 <= j < |body| && Names(body[j].0, i)
  }

  /**
   * The array has one slot per index up to the largest array index submitted:
   * slot i holds an object exactly when some link key names index i, every
   * named index is inside the array, and the last slot is not a hole. Slots
   * below the largest index that no key names are holes, whatever the order
   * in which the keys arrived.
   */
  ghost predicate SlotsMatch(body: Body, a: seq<Slot>)
  {
    && (forall j, i: nat {:trigger Names(body[j].0, i)} :: 0 <= j < |body| && Names(body[j].0, i) ==> i < |a| && a[i].Some?)
    && (forall i :: 0 <= i < |a| && a[i].Some? ==> Named(body, i))
    && (|a| > 0 ==> a[|a| - 1].Some?)
  }

  lemma {:induction false} ReconstructSlots(body: Body)
    requires !Throws(body)
    ensures Reconstruct(body).Success?
    ensures SlotsMatch(body, Reconstruct(body).value)
  {
    ReconstructFails(body);
    if body != [] {
      var p := body[..|body| - 1];
      NoThrowPrefix(body);
      ReconstructSlots(p);
      StepSets(body);
      var last := body[|body| - 1];
      if !IsLinkKey(last.0) || SlotOf(last.0).None? {
        SlotsSkip(body, Reconstruct(p).value);
      } else {
        var a', i := Reconstruct(p).value, SlotOf(last.0).value;
        var entry := if i < |a'| && a'[i].Some? then a'[i].value else map[];
        SlotsFill(body, a', Assign(entry, FieldName(last.0), last.1), Reconstruct(body).value);
      }
    }
  }

  lemma NoThrowPrefix(body: Body)
    requires body != [] && !Throws(body)
    ensures !Throws(body[..|body| - 1])
  {
    var p := body[..|body| - 1];
    forall j | 0 <= j < |p| ensures p[j] == body[j] { }
  }

  /** A last entry that names no slot keeps the array and its properties. */
  lemma SlotsSkip(body: Body, a: seq<Slot>)
    requires body != []
    requires !IsLinkKey(body[|body| - 1].0) || SlotOf(body[|body| - 1].0).None?
    requires SlotsMatch(body[..|body| - 1], a)
    ensures SlotsMatch(body, a)
  {
    var p, last := body[..|body| - 1], body[|body| - 1];
    forall j | 0 <= j < |p| ensures body[j] == p[j] { PrefixIndex(body, j); }
    assert forall i :: !Names(last.0, i);
    forall j, i: nat | 0 <= j < |body| && Names(body[j].0, i) ensures i < |a| && a[i].Some? {
      assert j != |body| - 1;
      assert Names(p[j].0, i);
    }
    forall i | 0 <= i < |a| && a[i].Some? ensures exists j :: 0 <= j < |body| && Names(body[j].0, i) {
      var j :| 0 <= j < |p| && Names(p[j].0, i);
      assert Names(body[j].0, i);
    }
  }

  /** Filling slot i0 keeps every other slot and leaves the last slot filled. */
  lemma SetSlotFilled(a: seq<Slot>, i0: nat, e: Entry)
    requires |a| > 0 ==> a[|a| - 1].Some?
    ensures var r := SetSlot(a, i0, e); |r| > 0 && r[|r| - 1].Some?
    ensures forall i :: 0 <= i < |a| && a[i].Some? ==> SetSlot(a, i0, e)[i].Some?
  {
    var r := SetSlot(a, i0, e);
    if i0 < |a| && i0 != |a| - 1 {
      assert r[|r| - 1] == a[|a| - 1];
    }
  }

  /** A last entry that names slot i0 fills it and keeps the properties. */
  lemma SlotsFill(body: Body, a': seq<Slot>, e: Entry, a: seq<Slot>)
    requires body != []
    requires IsLinkKey(body[|body| - 1].0) && SlotOf(body[|body| - 1].0).Some?
    requires SlotsMatch(body[..|body| - 1], a')
    requires a == SetSlot(a', SlotOf(body[|body| - 1].0).value, e)
    ensures SlotsMatch(body, a)
  {
    var p, last := body[..|body| - 1], body[|body| - 1];
    var i0 := SlotOf(last.0).value;
    SetSlotFilled(a', i0, e);
    forall j | 0 <= j < |p| ensures body[j] == p[j] { PrefixIndex(body, j); }
    assert Names(last.0, i0);
    forall j, i: nat | 0 <= j < |body| && Names(body[j].0, i) ensures i < |a| && a[i].Some? {
      if j < |p| {
        assert Names(p[j].0, i);
      }
    }
    forall i | 0 <= i < |a| && a[i].Some? ensures exists j :: 0 <= j < |body| && Names(body[j].0, i) {
      if i == i0 {
        assert Names(body[|body| - 1].0, i);
      } else {
        assert i < |a'| && a'[i].Some?;
        var j :| 0 <= j < |p| && Names(p[j].0, i);
        assert Names(body[j].0, i);
      }
    }
  }

  /** Some link key of the body names field f of slot i. */
  ghost predicate Assigned(body: Body, i: nat, f: string)
  {
    exists j :: 0 <= j < |body| && NamesField(body[j].0, i, f)
  }

  /**
   * Slot i holds exactly the fields submitted for index i (a field named
   * __proto__ excepted), nothing defaulted, and each holds the value of the
   * last key that named it.
   */
  ghost predicate FieldsMatch(body: Body, a: seq<Slot>)
  {
    && (forall i, f :: 0 <= i < |a| && a[i].Some? && f in a[i].value ==> f != "__proto__" && Assigned(body, i, f))
    && (forall i, f :: 0 <= i < |a| && a[i].Some? && f != "__proto__" && Assigned(body, i, f) ==> f in a[i].value)
    && (forall i, f :: 0 <= i < |a| && a[i].Some? && f in a[i].value ==> LastAssigned(body, i, f, a[i].value[f]))
  }

  lemma {:induction false} ReconstructFields(body: Body)
    requires !Throws(body)
    ensures Reconstruct(body).Success?
    ensures FieldsMatch(body, Reconstruct(body).value)
  {
    ReconstructSlots(body);
    if body != [] {
      var p := body[..|body| - 1];
      NoThrowPrefix(body);
      ReconstructFields(p);
      ReconstructSlots(p);
      StepSets(body);
      var last := body[|body| - 1];
      if !IsLinkKey(last.0) || SlotOf(last.0).None? {
        FieldsSkip(body, Reconstruct(p).value);
      } else {
        FieldsFill(body, Reconstruct(p).value);
      }
    }
  }

  /** A key is assigned in a body iff it is assigned in the prefix or by the last entry. */
  lemma AssignedSnoc(body: Body, i: nat, f: string)
    requires body != []
    ensures Assigned(body, i, f) <==> Assigned(body[..|body| - 1], i, f) || NamesField(body[|body| - 1].0, i, f)
  {
    var p := body[..|body| - 1];
    if Assigned(p, i, f) {
      var j :| 0 <= j < |p| && NamesField(p[j].0, i, f);
      assert body[j] == p[j];
    }
    if Assigned(body, i, f) {
      var j :| 0 <= j < |body| && NamesField(body[j].0, i, f);
      if j < |p| { assert body[j] == p[j]; }
    }
  }

  /** The last writer of a field stays the last writer when the new entry names something else. */
  lemma LastAssignedSnoc(body: Body, i: nat, f: string, v: string)
    requires body != []
    ensures NamesField(body[|body| - 1].0, i, f) ==> LastAssigned(body, i, f, body[|body| - 1].1)
    ensures !NamesField(body[|body| - 1].0, i, f) && LastAssigned(body[..|body| - 1], i, f, v) ==> LastAssigned(body, i, f, v)
  {
    var p := body[..|body| - 1];
    if !NamesField(body[|body| - 1].0, i, f) && LastAssigned(p, i, f, v) {
      var j :| 0 <= j < |p| && NamesField(p[j].0, i, f) && p[j].1 == v &&
        forall k :: j < k < |p| ==> !NamesField(p[k].0, i, f);
      assert body[j] == p[j];
      forall k | j < k < |body| ensures !NamesField(body[k].0, i, f) {
        if k < |p| { assert body[k] == p[k]; }
      }
    }
  }

  /** A last entry that names no slot keeps every field and its last writer. */
  lemma FieldsSkip(body: Body, a: seq<Slot>)
    requires body != []
    requires !IsLinkKey(body[|body| - 1].0) || SlotOf(body[|body| - 1].0).None?
    requires FieldsMatch(body[..|body| - 1], a)
    ensures FieldsMatch(body, a)
  {
    var last := body[|body| - 1];
    assert forall i, f :: !NamesField(last.0, i, f);
    forall i, f | 0 <= i < |a| && a[i].Some? && f in a[i].value
      ensures f != "__proto__" && Assigned(body, i, f) && LastAssigned(body, i, f, a[i].value[f])
    {
      AssignedSnoc(body, i, f);
      LastAssignedSnoc(body, i, f, a[i].value[f]);
    }
    forall i, f | 0 <= i < |a| && a[i].Some? && f != "__proto__" && Assigned(body, i, f)
      ensures f in a[i].value
    {
      AssignedSnoc(body, i, f);
    }
  }

  /** A last entry that names field f0 of slot i0 sets that field and keeps everything else. */
  lemma FieldsFill(body: Body, a': seq<Slot>)
    requires body != [] && !Throws(body)
    requires IsLinkKey(body[|body| - 1].0) && SlotOf(body[|body| - 1].0).Some?
    requires Reconstruct(body[..|body| - 1]) == Success(a')
    requires SlotsMatch(body[..|body| - 1], a') && FieldsMatch(body[..|body| - 1], a')
    ensures Reconstruct(body).Success? && FieldsMatch(body, Reconstruct(body).value)
  {
    StepSets(body);
    var last := body[|body| - 1];
    var i0, f0 := SlotOf(last.0).value, FieldName(last.0);
    var base := if i0 < |a'| && a'[i0].Some? then a'[i0].value else map[];
    var a := SetSlot(a', i0, Assign(base, f0, last.1));
    assert Reconstruct(body) == Success(a);
    FieldsFillAt(body, a', i0, f0, a);
  }

  /** `FieldsFill` on explicit arrays: the entry that names field f0 of slot i0 is folded into a'. */
  lemma FieldsFillAt(body: Body, a': seq<Slot>, i0: nat, f0: string, a: seq<Slot>)
    requires body != [] && NamesField(body[|body| - 1].0, i0, f0)
    requires SlotsMatch(body[..|body| - 1], a') && FieldsMatch(body[..|body| - 1], a')
    requires a == SetSlot(a', i0, Assign(if i0 < |a'| && a'[i0].Some? then a'[i0].value else map[], f0, body[|body| - 1].1))
    ensures FieldsMatch(body, a)
  {
    var p, last := body[..|body| - 1], body[|body| - 1];
    // Nothing in the prefix names a field of a slot that is still a hole.
    forall f | !(i0 < |a'| && a'[i0].Some?) ensures !Assigned(p, i0, f) {
    }
    forall i, f | 0 <= i < |a| && a[i].Some? && f in a[i].value
      ensures f != "__proto__" && Assigned(body, i, f) && LastAssigned(body, i, f, a[i].value[f])
    {
      AssignedSnoc(body, i, f);
      LastAssignedSnoc(body, i, f, a[i].value[f]);
      if !(i == i0 && f == f0 && f0 != "__proto__") {
        assert i < |a'| && a'[i].Some? && f in a'[i].value && a[i].value[f] == a'[i].value[f];
      }
    }
    forall i, f | 0 <= i < |a| && a[i].Some? && f != "__proto__" && Assigned(body, i, f)
      ensures f in a[i].value
    {
      AssignedSnoc(body, i, f);
      if !NamesField(last.0, i, f) {
        var j :| 0 <= j < |p| && NamesField(p[j].0, i, f);
        assert Names(p[j].0, i);
      }
    }
  }

  // ---------------------------------------------------------------------------
  // The keys the admin page's script gives its inputs
  // ---------------------------------------------------------------------------

  /** `links-${index}-${field}` */
  function LinkKey(i: nat, field: string): string
  {
    LinkPrefix + DecimalString(i) + "-" + field
  }

  /** Parsing a generated key gives back its index and field. */
  lemma LinkKeyParts(i: nat, field: string)
    requires i < ArrayIndexBound && '-' !in field
    ensures IsLinkKey(LinkKey(i, field))
    ensures IndexText(LinkKey(i, field)) == DecimalString(i)
    ensures SlotOf(LinkKey(i, field)) == Some(i)
    ensures FieldName(LinkKey(i, field)) == field
  {
    var d := DecimalString(i);
    DecimalStringValue(i);
    assert '-' !in d by {
      forall k | 0 <= k < |d| ensures d[k] != '-' {
        assert IsDigit(d[k]);
      }
    }
    var pieces := ["links", d, field];
    assert DashFree(pieces);
    assert Join(pieces) == LinkKey(i, field) by {
      assert Join(pieces[2..]) == field;
      assert Join(pieces[1..]) == d + "-" + field;
    }
    SplitJoin(pieces);
    ArrayIndexIsDecimal(d, i);
  }

  /** The inputs of the edit form after `updateNames`: indices 0..n-1, a text and a url field each. */
  function ClientForm(links: seq<(string, string)>): (body: Body)
    ensures |body| == 2 * |links|
  {
    if links == [] then []
    else
      var n := |links| - 1;
      ClientForm(links[..n]) + [(LinkKey(n, "text"), links[n].0), (LinkKey(n, "url"), links[n].1)]
  }

  /** The link objects a list of (text, url) pairs is meant to become. */
  function Entries(links: seq<(string, string)>): seq<Slot>
  {
    seq(|links|, i requires 0 <= i < |links| => Some(map["text" := links[i].0, "url" := links[i].1]))
  }

  /** The body is a text key and a url key for each index 0..n-1 in turn, carrying the list's values. */
  ghost predicate FormShaped(body: Body, links: seq<(string, string)>)
  {
    && |body| == 2 * |links|
    && forall i :: 0 <= i < |links| ==>
         && NamesField(body[2 * i].0, i, "text") && body[2 * i].1 == links[i].0
         && NamesField(body[2 * i + 1].0, i, "url") && body[2 * i + 1].1 == links[i].1
  }

  /** The script's input names have that shape. */
  lemma {:induction false} ClientFormShaped(links: seq<(string, string)>)
    requires |links| < ArrayIndexBound
    ensures FormShaped(ClientForm(links), links)
  {
    if links != [] {
      var n := |links| - 1;
      ClientFormShaped(links[..n]);
      LinkKeyParts(n, "text");
      LinkKeyParts(n, "url");
      FormShapedSnoc(ClientForm(links[..n]), links[..n], LinkKey(n, "text"), LinkKey(n, "url"), links[n]);
      assert links[..n] + [links[n]] == links;
    }
  }

  /** Appending a text key and a url key for the next index keeps a body form-shaped. */
  lemma FormShapedSnoc(body: Body, links: seq<(string, string)>, textKey: string, urlKey: string, link: (string, string))
    requires FormShaped(body, links)
    requires NamesField(textKey, |links|, "text") && NamesField(urlKey, |links|, "url")
    ensures FormShaped(body + [(textKey, link.0), (urlKey, link.1)], links + [link])
  {
    var b, l := body + [(textKey, link.0), (urlKey, link.1)], links + [link];
    forall i | 0 <= i < |links|
      ensures b[2 * i] == body[2 * i] && b[2 * i + 1] == body[2 * i + 1] && l[i] == links[i]
    {
    }
  }

  /** A form-shaped body rebuilds the list it carries, in order and without holes. */
  lemma {:induction false} FormShapedRoundTrip(body: Body, links: seq<(string, string)>)
    requires FormShaped(body, links)
    ensures Reconstruct(body) == Success(Entries(links))
  {
    if links == [] {
      assert body == [] && Entries(links) == [];
      assert LinkEntries([]) == [];
    } else {
      var n := |links| - 1;
      var b0 := body[..2 * n];
      assert FormShaped(b0, links[..n]) by {
        forall i | 0 <= i < n
          ensures b0[2 * i] == body[2 * i] && b0[2 * i + 1] == body[2 * i + 1] && links[..n][i] == links[i]
        {
        }
      }
      FormShapedRoundTrip(b0, links[..n]);
      assert |Entries(links[..n])| == n;
      var t, u := body[2 * n], body[2 * n + 1];
      assert NamesField(t.0, n, "text") && t.1 == links[n].0 && NamesField(u.0, n, "url") && u.1 == links[n].1;
      AppendEntry(b0, Entries(links[..n]), t.0, u.0, t.1, u.1);
      LastTwo(body);
      assert Entries(links[..n]) + [Some(map["text" := links[n].0, "url" := links[n].1])] == Entries(links);
    }
  }

  lemma LastTwo(body: Body)
    requires |body| >= 2
    ensures body == body[..|body| - 2] + [(body[|body| - 2].0, body[|body| - 2].1), (body[|body| - 1].0, body[|body| - 1].1)]
  {
  }

  /** The array rebuilt from a well-behaved client's form is the list it edited, in order and without holes. */
  lemma ClientFormRoundTrip(links: seq<(string, string)>)
    requires |links| < ArrayIndexBound
    ensures Reconstruct(ClientForm(links)) == Success(Entries(links))
  {
    ClientFormShaped(links);
    FormShapedRoundTrip(ClientForm(links), links);
  }

  /** A body of one link key for slot i holds i holes followed by an object with that one field. */
  lemma SingleKey(key: string, value: string, i: nat, f: string)
    requires NamesField(key, i, f) && f != "__proto__"
    ensures Reconstruct([(key, value)]) == Success(seq(i, _ => None) + [Some(map[f := value])])
  {
    var body: Body := [(key, value)];
    ReconstructSnoc(body);
    assert body[..0] == [] && LinkEntries([]) == [];
    assert Assign(map[], f, value) == map[f := value];
    var empty: seq<Slot> := [];
    assert SetSlot(empty, i, map[f := value]) == empty + seq(i, _ => None) + [Some(map[f := value])];
    assert empty + seq(i, _ => None) == seq(i, _ => None);
  }

  /** A text key and a url key for the first index past the end append one object holding both. */
  lemma AppendEntry(b0: Body, acc: seq<Slot>, textKey: string, urlKey: string, text: string, url: string)
    requires Reconstruct(b0) == Success(acc)
    requires NamesField(textKey, |acc|, "text") && NamesField(urlKey, |acc|, "url")
    ensures Reconstruct(b0 + [(textKey, text), (urlKey, url)]) == Success(acc + [Some(map["text" := text, "url" := url])])
  {
    var b1 := b0 + [(textKey, text)];
    KeyStep(b0, acc, textKey, text, |acc|, "text");
    var acc1 := SetSlot(acc, |acc|, map["text" := text]);
    assert acc1 == acc + [Some(map["text" := text])];
    KeyStep(b1, acc1, urlKey, url, |acc|, "url");
    assert b1 + [(urlKey, url)] == b0 + [(textKey, text), (urlKey, url)];
    var acc2 := SetSlot(acc1, |acc|, map["text" := text, "url" := url]);
    assert acc2 == acc + [Some(map["text" := text, "url" := url])];
  }

  /** Appending one key for field f of slot i to a body that rebuilds `acc` runs one callback on it. */
  lemma KeyStep(b: Body, acc: seq<Slot>, key: string, value: string, i: nat, f: string)
    requires Reconstruct(b) == Success(acc)
    requires NamesField(key, i, f)
    ensures Reconstruct(b + [(key, value)]) ==
      Success(SetSlot(acc, i, Assign(if i < |acc| && acc[i].Some? then acc[i].value else map[], f, value)))
  {
    var b1 := b + [(key, value)];
    assert b1[..|b1| - 1] == b && b1[|b1| - 1] == (key, value);
    ReconstructSnoc(b1);
  }

  // ---------------------------------------------------------------------------
  // Arrival order
  // ---------------------------------------------------------------------------

  /** No two different entries of the body fill the same field of the same slot. */
  ghost predicate UniqueNaming(body: Body)
  {
    forall x, y, i: nat, f {:trigger NamesField(x.0, i, f), NamesField(y.0, i, f)} ::
      x in body && y in body && NamesField(x.0, i, f) && NamesField(y.0, i, f) ==> x == y
  }

  /** The last writer of a field is an entry of the body that names it. */
  lemma LastAssignedEntry(body: Body, i: nat, f: string, v: string)
    requires LastAssigned(body, i, f, v)
    ensures exists x :: x in body && NamesField(x.0, i, f) && x.1 == v
  {
    var j :| 0 <= j < |body| && NamesField(body[j].0, i, f) && body[j].1 == v &&
      forall k :: j < k < |body| ==> !NamesField(body[k].0, i, f);
    assert body[j] in body;
  }

  /** Bodies with the same entries name the same slots, fields and "length" indices. */
  lemma SameEntriesSameNames(b1: Body, b2: Body)
    requires forall x :: x in b1 <==> x in b2
    ensures Throws(b1) <==> Throws(b2)
    ensures forall i: nat :: Named(b1, i) <==> Named(b2, i)
    ensures forall i: nat, f :: Assigned(b1, i, f) <==> Assigned(b2, i, f)
    ensures UniqueNaming(b1) ==> UniqueNaming(b2)
  {
    SameEntriesOneWay(b1, b2);
    SameEntriesOneWay(b2, b1);
  }

  lemma SameEntriesOneWay(b1: Body, b2: Body)
    requires forall x :: x in b1 ==> x in b2
    ensures Throws(b1) ==> Throws(b2)
    ensures forall i: nat :: Named(b1, i) ==> Named(b2, i)
    ensures forall i: nat, f :: Assigned(b1, i, f) ==> Assigned(b2, i, f)
  {
    if Throws(b1) {
      var j :| 0 <= j < |b1| && IsLinkKey(b1[j].0) && IndexText(b1[j].0) == "length";
      assert b1[j] in b2;
    }
    forall i: nat | Named(b1, i) ensures Named(b2, i) {
      var j :| 0 <= j < |b1| && Names(b1[j].0, i);
      assert b1[j] in b2;
    }
    forall i: nat, f | Assigned(b1, i, f) ensures Assigned(b2, i, f) {
      var j :| 0 <= j < |b1| && NamesField(b1[j].0, i, f);
      assert b1[j] in b2;
    }
  }

  /** Two arrays that both match the same meaning of a body are the same array. */
  lemma MatchIsUnique(b1: Body, b2: Body, a1: seq<Slot>, a2: seq<Slot>)
    requires forall i: nat :: Named(b1, i) <==> Named(b2, i)
    requires forall i: nat, f :: Assigned(b1, i, f) <==> Assigned(b2, i, f)
    requires forall x :: x in b1 <==> x in b2
    requires UniqueNaming(b2)
    requires SlotsMatch(b1, a1) && FieldsMatch(b1, a1) && SlotsMatch(b2, a2) && FieldsMatch(b2, a2)
    ensures a1 == a2
  {
    SameLength(b1, b2, a1, a2);
    forall i | 0 <= i < |a1| ensures a1[i] == a2[i] {
      SameSlot(b1, b2, a1, a2, i);
      if a1[i].Some? {
        SameEntry(b1, b2, a1, a2, i);
      }
    }
  }

  lemma SameEntry(b1: Body, b2: Body, a1: seq<Slot>, a2: seq<Slot>, i: nat)
    requires forall f :: Assigned(b1, i, f) <==> Assigned(b2, i, f)
    requires forall x :: x in b1 ==> x in b2
    requires UniqueNaming(b2)
    requires FieldsMatch(b1, a1) && FieldsMatch(b2, a2)
    requires i < |a1| && i < |a2| && a1[i].Some? && a2[i].Some?
    ensures a1[i] == a2[i]
  {
    var e1, e2 := a1[i].value, a2[i].value;
    forall f ensures f in e1 <==> f in e2 {
      EntryField(b1, a1, i, f);
      EntryField(b2, a2, i, f);
    }
    assert e1.Keys == e2.Keys;
    forall f | f in e1 ensures e1[f] == e2[f] {
      EntryField(b1, a1, i, f);
      EntryField(b2, a2, i, f);
      SameValue(b1, b2, i, f, e1[f], e2[f]);
    }
    assert e1 == e2;
  }

  /** What `FieldsMatch` says about one field of one filled slot. */
  lemma EntryField(b: Body, a: seq<Slot>, i: nat, f: string)
    requires FieldsMatch(b, a)
    requires i < |a| && a[i].Some?
    ensures f in a[i].value <==> f != "__proto__" && Assigned(b, i, f)
    ensures f in a[i].value ==> LastAssigned(b, i, f, a[i].value[f])
  {
  }

  /** When every entry of b1 is in b2 and b2 names each field once, both give a field the same last value. */
  lemma SameValue(b1: Body, b2: Body, i: nat, f: string, v1: string, v2: string)
    requires forall x :: x in b1 ==> x in b2
    requires UniqueNaming(b2)
    requires LastAssigned(b1, i, f, v1) && LastAssigned(b2, i, f, v2)
    ensures v1 == v2
  {
    LastAssignedEntry(b1, i, f, v1);
    LastAssignedEntry(b2, i, f, v2);
    var x :| x in b1 && NamesField(x.0, i, f) && x.1 == v1;
    var y :| y in b2 && NamesField(y.0, i, f) && y.1 == v2;
    assert x in b2;
  }

  lemma SameSlot(b1: Body, b2: Body, a1: seq<Slot>, a2: seq<Slot>, i: nat)
    requires Named(b1, i) <==> Named(b2, i)
    requires SlotsMatch(b1, a1) && SlotsMatch(b2, a2)
    requires i < |a1| && i < |a2|
    ensures a1[i].Some? <==> a2[i].Some?
  {
    if a1[i].Some? {
      assert Named(b1, i);
      var j :| 0 <= j < |b2| && Names(b2[j].0, i);
    }
    if a2[i].Some? {
      assert Named(b2, i);
      var j :| 0 <= j < |b1| && Names(b1[j].0, i);
    }
  }

  lemma SameLength(b1: Body, b2: Body, a1: seq<Slot>, a2: seq<Slot>)
    requires forall i: nat :: Named(b1, i) <==> Named(b2, i)
    requires SlotsMatch(b1, a1) && SlotsMatch(b2, a2)
    ensures |a1| == |a2|
  {
    if |a1| > 0 {
      LastNamed(b1, a1);
    }
    if |a2| > 0 {
      LastNamed(b2, a2);
    }
  }

  /** The last slot of a matching array is named by some key. */
  lemma LastNamed(b: Body, a: seq<Slot>)
    requires SlotsMatch(b, a) && |a| > 0
    ensures Named(b, |a| - 1)
  {
  }

  /**
   * The rebuilt array does not depend on the order in which the keys
   * arrived, as long as no two keys fill the same field of the same slot
   * (when two do, such as `links-0-text` and `links-0-text-x`, the later one wins).
   */
  lemma ArrivalOrderIrrelevant(b1: Body, b2: Body)
    requires forall x :: x in b1 <==> x in b2
    requires UniqueNaming(b1)
    ensures Reconstruct(b1) == Reconstruct(b2)
  {
    SameEntriesSameNames(b1, b2);
    ReconstructFails(b1);
    ReconstructFails(b2);
    if !Throws(b1) {
      ReconstructFields(b1);
      ReconstructFields(b2);
      ReconstructSlots(b1);
      ReconstructSlots(b2);
      MatchIsUnique(b1, b2, Reconstruct(b1).value, Reconstruct(b2).value);
    } else {
      assert Reconstruct(b1).error == LengthAssignment == Reconstruct(b2).error;
    }
  }

  /**
   * Keys for indices 0 and 2 rebuild three slots with a hole at index 1:
   * a gap is padded, not skipped.
   */
  lemma GapIsPadded(t0: string, u0: string, t2: string, u2: string, a: string, b: string, c: string, d: string)
    requires NamesField(t0, 0, "text") && NamesField(u0, 0, "url") && NamesField(t2, 2, "text") && NamesField(u2, 2, "url")
    ensures Reconstruct([(t0, a), (u0, b), (t2, c), (u2, d)]) ==
      Success([Some(map["text" := a, "url" := b]), None, Some(map["text" := c, "url" := d])])
  {
    FirstPair(t0, u0, a, b);
    var b2: Body := [(t0, a), (u0, b)];
    var acc := [Some(map["text" := a, "url" := b])];
    var b3 := b2 + [(t2, c)];
    KeyStep(b2, acc, t2, c, 2, "text");
    var acc3 := SetSlot(acc, 2, map["text" := c]);
    assert acc3 == [acc[0], None, Some(map["text" := c])];
    KeyStep(b3, acc3, u2, d, 2, "url");
    var acc4 := SetSlot(acc3, 2, map["text" := c, "url" := d]);
    assert acc4 == [acc[0], None, Some(map["text" := c, "url" := d])];
    assert b3 + [(u2, d)] == [(t0, a), (u0, b), (t2, c), (u2, d)];
  }

  lemma FirstPair(t0: string, u0: string, a: string, b: string)
    requires NamesField(t0, 0, "text") && NamesField(u0, 0, "url")
    ensures Reconstruct([(t0, a), (u0, b)]) == Success([Some(map["text" := a, "url" := b])])
  {
    var empty: Body := [];
    assert LinkEntries(empty) == [];
    AppendEntry(empty, [], t0, u0, a, b);
    assert empty + [(t0, a), (u0, b)] == [(t0, a), (u0, b)];
    var none: seq<Slot> := [];
    assert none + [Some(map["text" := a, "url" := b])] == [Some(map["text" := a, "url" := b])];
  }

  /** The same keys sent in another order rebuild the same array. */
  lemma GapArrivalOrder(t0: string, u0: string, t2: string, u2: string, a: string, b: string, c: string, d: string)
    requires NamesField(t0, 0, "text") && NamesField(u0, 0, "url") && NamesField(t2, 2, "text") && NamesField(u2, 2, "url")
    ensures Reconstruct([(t2, c), (u2, d), (t0, a), (u0, b)]) ==
      Success([Some(map["text" := a, "url" := b]), None, Some(map["text" := c, "url" := d])])
  {
    GapIsPadded(t0, u0, t2, u2, a, b, c, d);
    GapUnique(t0, u0, t2, u2, a, b, c, d);
    ArrivalOrderIrrelevant([(t0, a), (u0, b), (t2, c), (u2, d)], [(t2, c), (u2, d), (t0, a), (u0, b)]);
  }

  lemma GapUnique(t0: string, u0: string, t2: string, u2: string, a: string, b: string, c: string, d: string)
    requires NamesField(t0, 0, "text") && NamesField(u0, 0, "url") && NamesField(t2, 2, "text") && NamesField(u2, 2, "url")
    ensures UniqueNaming([(t0, a), (u0, b), (t2, c), (u2, d)])
  {
  }
}
