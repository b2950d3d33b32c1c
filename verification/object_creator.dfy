/** The object creator: the known factories, the factory the user has
    selected, and the property rows for the object to create. */
module Creation {
  import opened Base
  import opened Protocol
  import opened KvEdit

  /** A factory global: its name, the type of object it creates, and the
      id of its global (shown through an info button, opaque here). */
  datatype FactoryEntry = FactoryEntry(name: string, objectType: ObjectType, global: u32)

  datatype ObjectCreator = ObjectCreator(factories: map<u32, FactoryEntry>, selected: Option<u32>,
                                         props: EditableKVList)

  /** `ObjectCreator::default` */
  function NewCreator(): (c: ObjectCreator)
    ensures |c.factories| == 0 && c.selected.None? && |c.props.list| == 0
  {
    ObjectCreator(map[], None, NewList())
  }

  /** `add_factory`: inserts or overwrites the entry for `id`. */
  function AddFactory(c: ObjectCreator, id: u32, name: string, t: ObjectType, global: u32): (r: ObjectCreator)
    ensures id in r.factories && r.factories[id] == FactoryEntry(name, t, global)
    ensures r.factories - {id} == c.factories - {id}
    ensures r.selected == c.selected && r.props == c.props
  {
    c.(factories := c.factories[id := FactoryEntry(name, t, global)])
  }

  /** `remove_factory`: deletes the entry for `id` only. A selection of
      `id` is left in place and dropped at the next revalidation. */
  function RemoveFactory(c: ObjectCreator, id: u32): (r: ObjectCreator)
    ensures id !in r.factories
    ensures r.factories - {id} == c.factories - {id}
    ensures r.selected == c.selected && r.props == c.props
  {
    c.(factories := c.factories - {id})
  }

  /** Choosing an entry of the factory combo box. */
  function Select(c: ObjectCreator, id: u32): (r: ObjectCreator)
    ensures r.selected == Some(id)
    ensures r.factories == c.factories && r.props == c.props
  {
    c.(selected := Some(id))
  }

  /** The selected factory, if the selection still names a known one. */
  function Resolve(c: ObjectCreator): (f: Option<FactoryEntry>)
    ensures f.Some? <==> c.selected.Some? && c.selected.value in c.factories
    ensures f.Some? ==> f.value == c.factories[c.selected.value]
  {
    if c.selected.Some? && c.selected.value in c.factories then Some(c.factories[c.selected.value])
    else None
  }

  /** Selection revalidation at the start of every frame: a selection whose
      factory has gone is dropped; one that resolves is kept. */
  function Revalidate(c: ObjectCreator): (r: ObjectCreator)
    ensures r.selected.Some? ==> r.selected.value in r.factories
    ensures Resolve(c).Some? ==> r.selected == c.selected
    ensures Resolve(c).None? ==> r.selected.None?
    ensures r.factories == c.factories && r.props == c.props
  {
    if Resolve(c).None? then c.(selected := None) else c
  }

  /** Revalidation changes nothing a second time and never changes which
      factory resolves. */
  lemma RevalidateStable(c: ObjectCreator)
    ensures Revalidate(Revalidate(c)) == Revalidate(c)
    ensures Resolve(Revalidate(c)) == Resolve(c)
  {
  }

  /** "Create": possible only when the selection resolves; the request
      carries the factory's object type, its name and the property rows
      verbatim, in order. */
  function Create(c: ObjectCreator): (r: (ObjectCreator, Option<Request>))
    ensures r.0 == Revalidate(c)
    ensures r.1.Some? <==> Resolve(c).Some?
    ensures r.1.Some? ==>
              && r.1.value.CreateObject?
              && r.1.value.objectType == Resolve(c).value.objectType
              && r.1.value.factoryName == Resolve(c).value.name
              && r.1.value.createProps == c.props.list
  {
    var f := Resolve(c);
    (Revalidate(c), if f.Some? then Some(CreateObject(f.value.objectType, f.value.name, c.props.list)) else None)
  }

  /** "Clear": drops the selection and every property row, keeps the
      factories. */
  function Clear(c: ObjectCreator): (r: ObjectCreator)
    ensures r.selected.None? && |r.props.list| == 0
    ensures r.factories == c.factories
  {
    c.(selected := None, props := KvEdit.Clear(c.props))
  }

  /** Adding a factory, selecting it and pressing "Create" requests an
      object of that factory's type, by that factory's name, with the rows
      entered so far. */
  lemma CreateAfterSelect(c: ObjectCreator, id: u32, name: string, t: ObjectType, global: u32)
    ensures Create(Select(AddFactory(c, id, name, t, global), id)).1 ==
            Some(CreateObject(t, name, c.props.list))
  {
  }

  /** Once the selected factory is removed nothing can be created, and the
      next revalidation clears the selection. */
  lemma RemoveSelectedDisablesCreate(c: ObjectCreator)
    requires c.selected.Some?
    ensures Create(RemoveFactory(c, c.selected.value)).1.None?
    ensures Revalidate(RemoveFactory(c, c.selected.value)).selected.None?
  {
  }

  /** After "Clear" nothing can be created until a factory is selected. */
  lemma ClearDisablesCreate(c: ObjectCreator, id: u32)
    ensures Create(Clear(c)).1.None?
    ensures Create(Select(Clear(c), id)).1.Some? <==> id in c.factories
  {
  }
}
