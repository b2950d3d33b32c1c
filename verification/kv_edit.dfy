/** The editable key/value lists of the UI (`EditableKVList`) and the
    self-contained map editor built on them (`MapEditor`). */
module KvEdit {
  import opened Base
  import opened Props

  /** A list of user-entered (key, value) rows, in display order. */
  datatype EditableKVList = EditableKVList(list: seq<Entry>)

  /** `EditableKVList::new` */
  function NewList(): (l: EditableKVList)
    ensures |l.list| == 0
  {
    EditableKVList([])
  }

  /** The "Add" button: one blank row at the end, earlier rows untouched. */
  function AddRow(l: EditableKVList): (r: EditableKVList)
    ensures |r.list| == |l.list| + 1
    ensures r.list[..|l.list|] == l.list
    ensures r.list[|l.list|] == ("", "")
  {
    EditableKVList(l.list + [("", "")])
  }

  /** A row's "Delete" button: the row goes, the others keep their order. */
  function DeleteRow(l: EditableKVList, i: nat): (r: EditableKVList)
    requires i < |l.list|
    ensures |r.list| == |l.list| - 1
    ensures forall j :: 0 <= j < i ==> r.list[j] == l.list[j]
    ensures forall j :: i <= j < |r.list| ==> r.list[j] == l.list[j + 1]
  {
    EditableKVList(l.list[..i] + l.list[i + 1..])
  }

  /** Typing into a row's two text fields. */
  function EditRow(l: EditableKVList, i: nat, key: string, value: string): (r: EditableKVList)
    requires i < |l.list|
    ensures |r.list| == |l.list|
    ensures r.list[i] == (key, value)
    ensures forall j :: 0 <= j < |l.list| && j != i ==> r.list[j] == l.list[j]
  {
    EditableKVList(l.list[i := (key, value)])
  }

  /** `take`: hands out the rows and leaves the list empty. */
  function Take(l: EditableKVList): (r: (seq<Entry>, EditableKVList))
    ensures r.0 == l.list
    ensures |r.1.list| == 0
  {
    (l.list, EditableKVList([]))
  }

  /** `clear` */
  function Clear(l: EditableKVList): (r: EditableKVList)
    ensures |r.list| == 0
  {
    EditableKVList([])
  }

  /** Taking leaves the list as clearing does, and a second take returns
      nothing. */
  lemma TakeClears(l: EditableKVList)
    ensures Take(l).1 == Clear(l) == NewList()
    ensures Take(Take(l).1).0 == []
  {
  }

  /** Adding rows to a fresh list and taking it returns exactly that many
      blank rows. */
  lemma {:induction false} TakeAfterAdds(n: nat)
    ensures Take(AddRows(NewList(), n)).0 == seq(n, _ => ("", ""))
    decreases n
  {
    if n > 0 {
      TakeAfterAdds(n - 1);
    }
  }

  function AddRows(l: EditableKVList, n: nat): EditableKVList
    decreases n
  {
    if n == 0 then l else AddRow(AddRows(l, n - 1))
  }

  /** `MapEditor`: a stored property map plus staged additions. */
  datatype MapEditor = MapEditor(properties: PropMap, userAdditions: EditableKVList)

  /** `MapEditor::default` */
  function NewMapEditor(): (e: MapEditor)
    ensures |e.properties| == 0 && |e.userAdditions.list| == 0
  {
    MapEditor([], NewList())
  }

  /** `set_map`: replaces the stored map wholesale; staged rows stay. */
  function SetMap(e: MapEditor, m: PropMap): (r: MapEditor)
    ensures r.properties == m
    ensures r.userAdditions == e.userAdditions
  {
    e.(properties := m)
  }

  /** `take`: folds the staged rows into the map (a staged row overrides the
      stored value, a later row an earlier one), returns the result and
      drains both the map and the staged rows. */
  function TakeMap(e: MapEditor): (r: (PropMap, MapEditor))
    ensures Keys(r.0) == Keys(e.properties) + Keys(e.userAdditions.list)
    ensures forall k :: Get(r.0, k) ==
              if LastValue(e.userAdditions.list, k).Some? then LastValue(e.userAdditions.list, k)
              else Get(e.properties, k)
    ensures |r.1.properties| == 0 && |r.1.userAdditions.list| == 0
  {
    var (staged, rows) := Take(e.userAdditions);
    var merged := Extend(e.properties, staged);
    forall k
      ensures Get(merged, k) ==
                if LastValue(staged, k).Some? then LastValue(staged, k) else Get(e.properties, k)
    {
      ExtendGet(e.properties, staged, k);
    }
    (merged, MapEditor([], rows))
  }

  /** A stored key's "Delete" in the map editor (`retain` returning false
      for it): the key reads nothing afterwards, every other key reads what
      it read before. */
  function DeleteKey(m: PropMap, k: string): (r: PropMap)
    ensures Keys(r) == Keys(m) - {k}
    ensures forall k' :: Get(r, k') == if k' == k then None else Get(m, k')
  {
    RemoveKeys(m, k);
    forall k' ensures Get(Remove(m, k), k') == if k' == k then None else Get(m, k') {
      RemoveGet(m, k, k');
    }
    Remove(m, k)
  }

  /** Typing into a stored key's value field: only an existing key can be
      edited, and no key is added or removed. */
  function EditValue(m: PropMap, k: string, v: string): (r: PropMap)
    ensures Keys(r) == Keys(m)
    ensures forall k' :: Get(r, k') == if k' == k && k in Keys(m) then Some(v) else Get(m, k')
  {
    if k in Keys(m) then
      InsertKeys(m, k, v);
      forall k' ensures Get(Insert(m, k, v), k') == if k' == k then Some(v) else Get(m, k') {
        InsertGet(m, k, v, k');
      }
      Insert(m, k, v)
    else m
  }

  /** `DeleteKey` on the map editor's stored map; staged rows stay. */
  function DeleteStoredKey(e: MapEditor, k: string): (r: MapEditor)
    ensures k !in Keys(r.properties)
    ensures forall k' :: k' != k ==> Get(r.properties, k') == Get(e.properties, k')
    ensures r.userAdditions == e.userAdditions
  {
    e.(properties := DeleteKey(e.properties, k))
  }

  /** `EditValue` on the map editor's stored map; staged rows stay. */
  function EditStoredValue(e: MapEditor, k: string, v: string): (r: MapEditor)
    ensures Keys(r.properties) == Keys(e.properties)
    ensures k in Keys(e.properties) ==> Get(r.properties, k) == Some(v)
    ensures forall k' :: k' != k ==> Get(r.properties, k') == Get(e.properties, k')
    ensures r.userAdditions == e.userAdditions
  {
    e.(properties := EditValue(e.properties, k, v))
  }

  /** A deleted stored key comes back through `take` only if a staged row
      names it, and then with the last staged value. */
  lemma DeleteThenTake(e: MapEditor, k: string)
    ensures Get(TakeMap(DeleteStoredKey(e, k)).0, k) == LastValue(e.userAdditions.list, k)
  {
  }
}
