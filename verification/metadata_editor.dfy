/** The metadata mirror (`MetadataEditor`): for every metadata global its
    name, its records keyed by property key, and the rows the user is
    composing, plus the requests its panel sends. */
module MetadataMirror {
  import opened Base
  import opened Protocol

  /** One metadata record: subject object id, optional type, value. */
  datatype Property = Property(subject: u32, propType: Option<string>, value: string)

  /** `Property::set_request`: sets `key` to the record's current value. */
  function SetRequest(p: Property, key: string): (m: ObjectMethod)
    ensures m.MetadataSetProperty? && m.value == Some(p.value)
    ensures m.subject == p.subject && m.key == key && m.propType == p.propType
  {
    MetadataSetProperty(p.subject, key, p.propType, Some(p.value))
  }

  /** `Property::clear_request`: the same call with no value, which deletes
      the key. */
  function ClearRequest(p: Property, key: string): (m: ObjectMethod)
    ensures m.MetadataSetProperty? && m.value == None
    ensures m.subject == p.subject && m.key == key && m.propType == p.propType
  {
    MetadataSetProperty(p.subject, key, p.propType, None)
  }

  /** Set and clear requests for one record address the same subject, key
      and type and differ only in carrying the value. */
  lemma SetAndClearAgree(p: Property, key: string)
    ensures var m := SetRequest(p, key);
            m.MetadataSetProperty? && m.(value := None) == ClearRequest(p, key)
    ensures SetRequest(p, key) != ClearRequest(p, key)
  {
  }

  datatype MetadataEntry = MetadataEntry(name: string, properties: map<string, Property>,
                                         userProperties: seq<(string, Property)>)

  datatype MetadataEditor = MetadataEditor(metadatas: map<u32, MetadataEntry>)

  /** Entries other than `id` are the same in `a` and `b`. */
  predicate SameElsewhere(a: MetadataEditor, b: MetadataEditor, id: u32) {
    a.metadatas - {id} == b.metadatas - {id}
  }

  /** `MetadataEditor::new` */
  function NewEditor(): (e: MetadataEditor)
    ensures forall id :: id !in e.metadatas
  {
    MetadataEditor(map[])
  }

  /** `add_metadata`: registers a metadata global with no records, unless
      it is already known, in which case nothing changes. */
  function AddMetadata(e: MetadataEditor, id: u32, name: string): (r: MetadataEditor)
    ensures id in r.metadatas
    ensures id in e.metadatas ==> r == e
    ensures id !in e.metadatas ==> r.metadatas[id] == MetadataEntry(name, map[], [])
    ensures SameElsewhere(e, r, id)
  {
    if id in e.metadatas then e else MetadataEditor(e.metadatas[id := MetadataEntry(name, map[], [])])
  }

  /** `add_property`: upserts one record. On a known id the record for
      `key` is replaced or added and the name stays; on an unknown id the
      entry is created with the given name and this single record. */
  function AddProperty(e: MetadataEditor, id: u32, name: string, subject: u32, key: string,
                       propType: Option<string>, value: string): (r: MetadataEditor)
    ensures id in r.metadatas
    ensures key in r.metadatas[id].properties
    ensures r.metadatas[id].properties[key] == Property(subject, propType, value)
    ensures id in e.metadatas ==>
              && r.metadatas[id].name == e.metadatas[id].name
              && r.metadatas[id].userProperties == e.metadatas[id].userProperties
              && r.metadatas[id].properties.Keys == e.metadatas[id].properties.Keys + {key}
              && (forall k :: k in e.metadatas[id].properties && k != key ==>
                    r.metadatas[id].properties[k] == e.metadatas[id].properties[k])
    ensures id !in e.metadatas ==>
              && r.metadatas[id].name == name
              && r.metadatas[id].properties.Keys == {key}
              && |r.metadatas[id].userProperties| == 0
    ensures SameElsewhere(e, r, id)
  {
    var prop := Property(subject, propType, value);
    if id in e.metadatas then
      var m := e.metadatas[id];
      MetadataEditor(e.metadatas[id := m.(properties := m.properties[key := prop])])
    else
      MetadataEditor(e.metadatas[id := MetadataEntry(name, map[key := prop], [])])
  }

  /** `remove_metadata`: drops the whole entry. */
  function RemoveMetadata(e: MetadataEditor, id: u32): (r: MetadataEditor)
    ensures id !in r.metadatas
    ensures SameElsewhere(e, r, id)
  {
    MetadataEditor(e.metadatas - {id})
  }

  /** `remove_property`: deletes one key of a known entry; on an unknown id
      nothing happens and no entry is created. */
  function RemoveProperty(e: MetadataEditor, id: u32, key: string): (r: MetadataEditor)
    ensures id !in e.metadatas ==> r == e
    ensures id in e.metadatas ==>
              && id in r.metadatas
              && r.metadatas[id].properties.Keys == e.metadatas[id].properties.Keys - {key}
              && (forall k :: k in r.metadatas[id].properties ==>
                    r.metadatas[id].properties[k] == e.metadatas[id].properties[k])
              && r.metadatas[id].name == e.metadatas[id].name
              && r.metadatas[id].userProperties == e.metadatas[id].userProperties
    ensures SameElsewhere(e, r, id)
  {
    if id in e.metadatas then
      var m := e.metadatas[id];
      MetadataEditor(e.metadatas[id := m.(properties := m.properties - {key})])
    else e
  }

  /** `clear_properties`: empties the records of a known entry but keeps
      the entry, its name and its composed rows. */
  function ClearProperties(e: MetadataEditor, id: u32): (r: MetadataEditor)
    ensures id !in e.metadatas ==> r == e
    ensures id in e.metadatas ==>
              && id in r.metadatas
              && |r.metadatas[id].properties| == 0
              && r.metadatas[id].name == e.metadatas[id].name
              && r.metadatas[id].userProperties == e.metadatas[id].userProperties
    ensures SameElsewhere(e, r, id)
  {
    if id in e.metadatas then
      var m := e.metadatas[id];
      MetadataEditor(e.metadatas[id := m.(properties := map[])])
    else e
  }

  /** Upserting one key twice leaves one record for it, holding the later
      value, and the same key set as upserting once. */
  lemma UpsertTwice(e: MetadataEditor, id: u32, name: string, key: string,
                    s1: u32, t1: Option<string>, v1: string,
                    s2: u32, t2: Option<string>, v2: string)
    ensures var once := AddProperty(e, id, name, s2, key, t2, v2);
            var twice := AddProperty(AddProperty(e, id, name, s1, key, t1, v1), id, name, s2, key, t2, v2);
            twice == once
  {
    var p1 := Property(s1, t1, v1);
    var p2 := Property(s2, t2, v2);
    if id in e.metadatas {
      var m := e.metadatas[id];
      assert m.properties[key := p1][key := p2] == m.properties[key := p2];
      assert e.metadatas[id := m.(properties := m.properties[key := p1])]
                        [id := m.(properties := m.properties[key := p2])]
          == e.metadatas[id := m.(properties := m.properties[key := p2])];
    } else {
      assert map[key := p1][key := p2] == map[key := p2];
      assert e.metadatas[id := MetadataEntry(name, map[key := p1], [])]
                        [id := MetadataEntry(name, map[key := p2], [])]
          == e.metadatas[id := MetadataEntry(name, map[key := p2], [])];
    }
  }

  /** Removing a key that was just upserted restores the records as they
      were, when the key was absent before. */
  lemma RemoveUndoesAdd(e: MetadataEditor, id: u32, name: string, key: string,
                        s: u32, t: Option<string>, v: string)
    requires id in e.metadatas && key !in e.metadatas[id].properties
    ensures RemoveProperty(AddProperty(e, id, name, s, key, t, v), id, key) == e
  {
    var m := e.metadatas[id];
    assert m.properties[key := Property(s, t, v)] - {key} == m.properties;
    assert e.metadatas[id := m] == e.metadatas;
  }

  /** Example: two upserts of one key on the same metadata leave exactly one
      record for that key, with the second value; a delete then removes it
      while the entry itself stays. */
  lemma MetadataExample()
    ensures var e := AddProperty(AddProperty(NewEditor(), 1, "default", 0, "k", None, "v1"),
                                 1, "default", 0, "k", None, "v2");
            && e.metadatas[1].properties == map["k" := Property(0, None, "v2")]
            && 1 in RemoveProperty(e, 1, "k").metadatas
            && |RemoveProperty(e, 1, "k").metadatas[1].properties| == 0
  {
    var e := AddProperty(AddProperty(NewEditor(), 1, "default", 0, "k", None, "v1"),
                         1, "default", 0, "k", None, "v2");
    assert e.metadatas[1].properties.Keys == {"k"};
    assert RemoveProperty(e, 1, "k").metadatas[1].properties.Keys == {};
  }

  /** The panel's "Clear" button next to the id: wipes every key. */
  function ClearAllRequest(id: u32): (req: Request)
    ensures req.CallObjectMethod? && req.id == id && req.call.MetadataClear?
  {
    CallObjectMethod(id, MetadataClear)
  }

  /** A record's "Set" or "Clear" button: the set or clear request for that
      record, sent to its metadata global. */
  function RecordRequest(e: MetadataEditor, id: u32, key: string, setValue: bool): (r: Option<Request>)
    ensures r.Some? <==> id in e.metadatas && key in e.metadatas[id].properties
    ensures r.Some? ==> r.value.CallObjectMethod? && r.value.id == id &&
                        r.value.call.MetadataSetProperty? && r.value.call.key == key
    ensures r.Some? ==>
              r.value.call == (if setValue then SetRequest(e.metadatas[id].properties[key], key)
                               else ClearRequest(e.metadatas[id].properties[key], key))
  {
    if id in e.metadatas && key in e.metadatas[id].properties then
      var p := e.metadatas[id].properties[key];
      Some(CallObjectMethod(id, if setValue then SetRequest(p, key) else ClearRequest(p, key)))
    else None
  }

  /** Typing into a record's value field: the mirror's own copy of the
      value changes in place, before any request is sent. */
  function EditRecordValue(e: MetadataEditor, id: u32, key: string, value: string): (r: MetadataEditor)
    ensures id in e.metadatas && key in e.metadatas[id].properties ==>
              && id in r.metadatas
              && r.metadatas[id].properties.Keys == e.metadatas[id].properties.Keys
              && r.metadatas[id].properties[key] == e.metadatas[id].properties[key].(value := value)
              && (forall k :: k in e.metadatas[id].properties && k != key ==>
                    r.metadatas[id].properties[k] == e.metadatas[id].properties[k])
              && r.metadatas[id].name == e.metadatas[id].name
              && r.metadatas[id].userProperties == e.metadatas[id].userProperties
    ensures !(id in e.metadatas && key in e.metadatas[id].properties) ==> r == e
    ensures SameElsewhere(e, r, id)
  {
    if id in e.metadatas && key in e.metadatas[id].properties then
      var m := e.metadatas[id];
      var p := m.properties[key];
      MetadataEditor(e.metadatas[id := m.(properties := m.properties[key := p.(value := value)])])
    else e
  }

  /** "Set" after editing a record's value sends the edited value with the
      record's subject and type; "Clear" is unaffected by the edit. */
  lemma EditThenSet(e: MetadataEditor, id: u32, key: string, value: string)
    requires id in e.metadatas && key in e.metadatas[id].properties
    ensures var p := e.metadatas[id].properties[key];
            RecordRequest(EditRecordValue(e, id, key, value), id, key, true) ==
              Some(CallObjectMethod(id, MetadataSetProperty(p.subject, key, p.propType, Some(value))))
    ensures RecordRequest(EditRecordValue(e, id, key, value), id, key, false) ==
            RecordRequest(e, id, key, false)
  {
  }

  /** "Add Property": a blank composed row (empty key, subject 0, no type,
      empty value) at the end of the entry's rows. */
  function AddUserRow(e: MetadataEditor, id: u32): (r: MetadataEditor)
    ensures id in e.metadatas ==>
              && id in r.metadatas
              && r.metadatas[id].userProperties ==
                   e.metadatas[id].userProperties + [("", Property(0, None, ""))]
              && r.metadatas[id].properties == e.metadatas[id].properties
              && r.metadatas[id].name == e.metadatas[id].name
    ensures id !in e.metadatas ==> r == e
    ensures SameElsewhere(e, r, id)
  {
    if id in e.metadatas then
      var m := e.metadatas[id];
      MetadataEditor(e.metadatas[id := m.(userProperties := m.userProperties + [("", Property(0, None, ""))])])
    else e
  }

  /** A composed row's "Add": the set request for that row. The mirror
      itself changes only when the daemon reports the new record. */
  function SubmitUserRow(e: MetadataEditor, id: u32, i: nat): (r: Option<Request>)
    ensures r.Some? <==> id in e.metadatas && i < |e.metadatas[id].userProperties|
    ensures r.Some? ==>
              var (key, p) := e.metadatas[id].userProperties[i];
              r.value == CallObjectMethod(id, SetRequest(p, key))
  {
    if id in e.metadatas && i < |e.metadatas[id].userProperties| then
      var (key, p) := e.metadatas[id].userProperties[i];
      Some(CallObjectMethod(id, SetRequest(p, key)))
    else None
  }

  /** If the daemon accepts a record's set request and reports it back,
      applying the report leaves that record as it was: the request carries
      everything the record holds. */
  lemma SetRequestRoundTrip(e: MetadataEditor, id: u32, key: string)
    requires id in e.metadatas && key in e.metadatas[id].properties
    ensures var m := SetRequest(e.metadatas[id].properties[key], key);
            AddProperty(e, id, e.metadatas[id].name, m.subject, m.key, m.propType, m.value.value) == e
  {
    var m := e.metadatas[id];
    assert m.properties[key := m.properties[key]] == m.properties;
    assert e.metadatas[id := m] == e.metadatas;
  }
}
