# coppwr object-graph mirror, in Dafny

coppwr is a PipeWire control panel. Its UI keeps a mirror of the daemon's
object graph and a few editors, and it reacts to user input by sending
requests to a backend thread. This project models that mirror and those
editors as pure functions, and proves what they promise:

- `Globals` covers one mirrored object (`Global`). That means its type-specific data,
  its child list, its property and info updates, port grouping, and the
  requests a client panel sends for permissions and properties.
- `Derive` covers how a global's parent id and display name follow from its type
  and properties (`Global::update`).
- `ParseU32` covers Rust's `u32::from_str`, which turns `device.id`, `client.id` and
  `node.id` into parent ids.
- `Props` covers the property map (`BTreeMap<Box<str>, String>`) as a key-sorted
  association list: lookup, insert, delete and `extend`.
- `Strings` covers the string predicates and the key order (code-point order, which
  is the byte order of UTF-8 that `str` comparison uses).
- `KvEdit` covers the editable key/value row list and the map editor, including its
  in-place deletes and value edits of the stored map.
- `KvFilter` covers string match modes, single-string filters and the key/value
  matcher.
- `MetadataMirror` covers the metadata editor's records, in-place value edits and the
  set/clear requests.
- `Creation` covers the object creator's factories, selection revalidation, "Create"
  and "Clear".
- `Protocol` covers the request and object-method vocabulary of the backend
  (`src/backend/mod.rs:29-58`) as plain datatypes.
- `Base` holds `Option` and the `u32` range.

Child references are object ids, not weak pointers. A child is alive when
its id is a key of the store of globals (`map<u32, Global>`). Sending a
request is modelled as returning it. A panel operation returns the new state
together with the requests it sends, in order.

## Model

| member | source | states |
|---|---|---|
| Globals.DataFor | src/ui/global.rs:82-93 | Only a client gets client data. That data starts with no fetched permissions, no staged permission rows and no staged property rows. |
| Globals.PipewireTypeRoundTrip | src/ui/global.rs:95-101 | The type reported by an object's data is the type it was built from, for every object type. |
| Globals.Update | src/ui/global.rs:222-268 | After `update`, name and parent equal what the current properties derive. Nothing else in the global changes. |
| Globals.NewGlobal | src/ui/global.rs:200-220 | A new global has the given id and type, empty subobjects, no info, and the given properties (empty if none). Its name and parent are already consistent with those properties, including when the map is empty and derivation is skipped. |
| Globals.SetProps | src/ui/global.rs:474-477 | `set_props` installs the new map and re-establishes the name/parent invariant. Id, children, info and type data are kept. |
| Globals.SetPropsForgetsHistory | src/ui/global.rs:474-477 | After `set_props`, name and parent depend only on the type and the new map. Creating with a map equals creating bare and then setting that map. |
| Globals.SetInfo | src/ui/global.rs:483-485 | `set_info` replaces the info list and touches nothing else. |
| Globals.AddSubobject | src/ui/global.rs:466-468 | `add_subobject` appends exactly one child reference at the end. Existing references and every other field are unchanged. |
| Globals.KeepLiveCounts | src/ui/global.rs:380-381 | Retaining live references keeps each live child exactly as many times as it occurred, and each dead child zero times. |
| Globals.PruneSubobjects | src/ui/global.rs:380-381 | After pruning, a child is listed iff it was listed and is alive. Multiplicities of live children are kept, and the survivors stay in their original order (the list is the order-preserving filter `KeepLive`). No other field changes. |
| Globals.KeepLiveConcat | src/ui/global.rs:381 | Retaining is an order-preserving filter: it distributes over concatenation, keeps a single live reference and drops a single dead one. |
| Globals.PruneSettles | src/ui/global.rs:380-381 | Pruning is idempotent. After a global leaves the store, one prune removes every reference to it. |
| Globals.KeepLiveIdempotent | src/ui/global.rs:381 | Retaining twice equals retaining once. |
| Globals.KeepLiveAppend | src/ui/global.rs:381 | Appending already-live references commutes with retaining. |
| Globals.PanelPrune | src/ui/global.rs:371-381 | Types without a child header (anything but device, client, node, port) return before pruning, so their list is untouched. The other types get exactly `PruneSubobjects`: dead references go, live ones keep their multiplicity and order. |
| Globals.GroupPorts | src/ui/global.rs:398-413 | The single-pass grouping loop yields, for each direction, exactly the live children of that direction in child-list order. `in` goes to Inputs, `out` to Outputs, anything else or missing to Unknown. |
| Globals.SelectStep | src/ui/global.rs:402-413 | Each further child extends exactly the group of its direction, and only if it is alive. |
| Globals.GroupsPartition | src/ui/global.rs:402-413 | The three groups together are a permutation of the live children. Every live child is shown exactly once per occurrence and dead ones never. |
| Globals.PartitionStep | src/ui/global.rs:409-411 | Pushing one port onto the group its direction names keeps the three groups a partition of the children seen so far. |
| Globals.SelectSound | src/ui/global.rs:402-413 | Every member of a group is a child of the node, is alive, and has that group's direction. |
| Globals.DestroyRequests | src/ui/global.rs:318-320 | "Destroy" sends one destroy request for this global's own id. |
| Globals.RefreshPermissions | src/ui/global.rs:111-120 | The permission fetch asks this client for entries from index 0 with count `u32::MAX`. |
| Globals.GetPermissions | src/ui/global.rs:104-120 | Only clients have "Get permissions", and it sends exactly the full fetch. |
| Globals.AddPermissionRow | src/ui/global.rs:122-150 | Once the list has been fetched, "Add" stages a row for id 0 with no permission flags at the end. Before the fetch nothing happens. |
| Globals.UpdatePermissions | src/ui/global.rs:153-177 | "Update permissions" sends the fetched entries followed by the staged ones, in order, then a full re-fetch. It empties the staged rows and keeps the fetched list and properties. |
| Globals.UpdatePermissionsKeepsDuplicates | src/ui/global.rs:154-158 | The update payload is the multiset union of fetched and staged entries, so duplicates for one id are all sent. |
| Globals.UpdatePermissionsExample | src/ui/global.rs:153-166 | Two fetched entries and one staged entry for the same id give a three-entry payload. |
| Globals.UpdateProperties | src/ui/global.rs:346-358 | "Update properties" merges the staged rows into the client's properties. A staged row beats the stored value, and a later row beats an earlier one; the key set is the union. The staged rows are drained, and the request carries exactly the merged map. |
| Globals.DeleteClientProperty | src/ui/global.rs:342 | The client panel's map editor deleting a stored key removes exactly that key, keeps every other lookup, and leaves name and parent as they were. Other types have no editor. |
| Globals.EditClientProperty | src/ui/global.rs:342 | Editing a stored value in the client panel changes only that key's value, never the key set, and does not re-derive. |
| Globals.DeleteLeavesNameStale | src/ui/global.rs:342 | Deleting the `application.name` a client was named by leaves the old name shown although the properties now derive none. |
| Globals.UpdatePropertiesLeavesNameStale | src/ui/global.rs:346-358 | Because this path does not call `update`, a staged `application.name` is in the properties while the shown name is still none. A later `set_props` with the same map restores the invariant. |
| Globals.ChildKindOf | src/ui/global.rs:371-378 | Devices and clients list nodes, nodes list ports, ports list links, and every other type shows no child list. |
| Derive.ParentSource | src/ui/global.rs:223-230 | Only nodes and ports have a parent property to read. |
| Derive.DeriveParent | src/ui/global.rs:222-231 | A derived parent always comes from parsing the chosen property as a `u32`. |
| Derive.ParentOnlyForNodesAndPorts | src/ui/global.rs:223-230 | Every type other than node and port has no parent, whatever its properties. |
| Derive.NodeParentFromDevice | src/ui/global.rs:224-227 | A node's `device.id`, when present, decides its parent alone. An unparsable value does not fall back to `client.id`. |
| Derive.NodeParentFromClient | src/ui/global.rs:224-227 | Without `device.id`, a node's parent is its parsed `client.id`, or none when that is absent. |
| Derive.PortParentRoundTrip | src/ui/global.rs:228-231 | A port whose `node.id` is the decimal rendering of a `u32` has that node as its parent. |
| Derive.PortParentFromNodeId | src/ui/global.rs:228-231 | A port's parent is `node.id` parsed as a `u32`. A port without `node.id` has no parent. |
| Derive.PortParentExamples | src/ui/global.rs:228-231 | A port with `node.id` "+5" or "05" has parent 5. A port without `node.id` has no parent, whatever else it carries. |
| Derive.ParentExamples | src/ui/global.rs:222-231 | `node.id` "5" gives parent 5 and "x" gives none. A malformed `device.id` hides a valid `client.id`. |
| Derive.FallbackName | src/ui/global.rs:253-265 | The fallback scan finds nothing iff no key qualifies. Otherwise it takes the value of the first qualifying key. |
| Derive.DeriveName | src/ui/global.rs:233-267 | A derived name is always the value of some property. There is no name iff the type-specific lookup fails and no key qualifies for the fallback. |
| Derive.FallbackIsLeast | src/ui/global.rs:253-265 | On a key-ordered map, the fallback returns a value exactly when some key qualifies. That value is the smallest qualifying key's value. |
| Derive.FallbackLeastKey | src/ui/global.rs:253-265 | When the fallback returns a value, it belongs to a qualifying key that is below every other qualifying key. |
| Derive.NamePriority | src/ui/global.rs:234-251 | Devices and nodes take the first present of nick, description and name. Ports take `port.name` and cores take `core.name`. |
| Derive.NameFallback | src/ui/global.rs:253-265 | When the type-specific lookup finds nothing, the name is the value of the least qualifying key, or none if no key qualifies. |
| Derive.ExcludedNameKeys | src/ui/global.rs:257-261 | For every map and type, adding `library.name` leaves the derived name unchanged. Adding `factory.name` leaves it unchanged for every type but factories. |
| Derive.FactoryNamedByFactoryName | src/ui/global.rs:257-262 | For a factory, `factory.name` does qualify: a factory whose only property it is is named by it. |
| Derive.IgnoredKey | src/ui/global.rs:233-265 | Inserting any key that the type-specific lookup does not read and the fallback scan does not accept leaves the derived name unchanged, whatever the rest of the map holds. |
| Derive.TypeSpecificIgnores | src/ui/global.rs:234-251 | Inserting a key other than the type's nick/description/name keys, `port.name` or `core.name` leaves the type-specific lookup unchanged. |
| Derive.FallbackIgnores | src/ui/global.rs:253-265 | The fallback scan gives the same result after a non-qualifying key is added. |
| Derive.NameExamples | src/ui/global.rs:233-251 | A node with only `node.name` = "foo" is named "foo". One with nick "a" and name "b" is named "a". |
| Derive.EmptyDerivesNothing | src/ui/global.rs:215-217 | An empty map derives neither name nor parent, so skipping `update` for it loses nothing. |
| ParseU32.Parse | src/ui/global.rs:231 | An accepted string is an optional `+` followed by digits only. |
| ParseU32.ParseDecimal | src/ui/global.rs:231 | Parsing inverts decimal rendering on the whole `u32` range, with or without a leading `+`. |
| ParseU32.ParseRejectsOverflow | src/ui/global.rs:231 | A number above `u32::MAX` is rejected, not wrapped. |
| ParseU32.ParseLeadingZero | src/ui/global.rs:231 | A leading zero does not change the parsed value. |
| ParseU32.ParseRejects | src/ui/global.rs:231 | The empty string, a lone `+`, a leading `-` and surrounding spaces all give no parent. |
| Props.Get | src/ui/global.rs:226 | A lookup finds nothing iff the key is absent, and otherwise returns a value stored under that key. |
| Props.Insert | src/ui/util/uis.rs:166-171 | Inserting keeps the map key-sorted. Its entries are the new pair plus every old pair with a different key. |
| Props.InsertGet | src/ui/util/uis.rs:166-171 | After an insert the key reads the new value, and every other key reads what it read before. |
| Props.Extend | src/ui/util/uis.rs:166-171 | `extend` keeps every key of the map and adds exactly the staged keys. What each key then reads is Props.ExtendGet. |
| Props.ExtendGet | src/ui/util/uis.rs:166-171 | After `extend`, a key reads its last staged value if it was staged, and otherwise its old value. |
| Props.Remove | src/ui/util/uis.rs:69-83 | Deleting a key keeps the map sorted. Its entries are exactly the old entries with another key. |
| Props.RemoveKeys | src/ui/util/uis.rs:69-83 | Deleting a key removes exactly that key from the key set. |
| Props.RemoveGet | src/ui/util/uis.rs:69-83 | After a delete the key reads nothing, and every other key reads what it read before. |
| KvEdit.NewList | src/ui/util/uis.rs:97-100 | A new row list is empty. |
| KvEdit.AddRow | src/ui/util/uis.rs:121-123 | "Add" appends one blank row and keeps the earlier rows in place. |
| KvEdit.DeleteRow | src/ui/util/uis.rs:103-119 | "Delete" removes exactly that row. The others keep their relative order. |
| KvEdit.EditRow | src/ui/util/uis.rs:106-115 | Editing a row's fields changes that row only. |
| KvEdit.Take | src/ui/util/uis.rs:134-136 | `take` hands out all rows in order and leaves the list empty. |
| KvEdit.Clear | src/ui/util/uis.rs:138-140 | `clear` leaves no rows. |
| KvEdit.TakeClears | src/ui/util/uis.rs:134-140 | What `take` leaves behind is what `clear` and `new` give. A second `take` returns nothing. |
| KvEdit.TakeAfterAdds | src/ui/util/uis.rs:121-136 | Pressing "Add" n times on a fresh list and taking yields exactly n blank rows. |
| KvEdit.NewMapEditor | src/ui/util/uis.rs:143-148 | A default map editor has an empty map and no staged rows. |
| KvEdit.SetMap | src/ui/util/uis.rs:151-153 | `set_map` replaces the stored map wholesale and keeps the staged rows. |
| KvEdit.TakeMap | src/ui/util/uis.rs:165-174 | `take` returns the stored map merged with the staged rows, where later rows win. Its keys are the union of both. The editor is left with an empty map and no rows. |
| KvEdit.DeleteKey | src/ui/util/uis.rs:69-83 | A stored key's "Delete" removes exactly that key, and every other lookup is unchanged. |
| KvEdit.EditValue | src/ui/util/uis.rs:74-77 | A stored value's text field changes only an existing key's value. No key is added or removed. |
| KvEdit.DeleteStoredKey | src/ui/util/uis.rs:155-163 | Deleting in the map editor removes that key from its stored map, keeps the other lookups and keeps the staged rows. |
| KvEdit.EditStoredValue | src/ui/util/uis.rs:155-163 | Editing a value in the map editor changes that key's value only and keeps the staged rows. |
| KvEdit.DeleteThenTake | src/ui/util/uis.rs:165-174 | After a stored key is deleted, `take` yields it only if a staged row names it, and then with the last staged value. |
| KvFilter.Matches | src/ui/util/uis.rs:189-196 | Each mode means what its name says: substring occurrence at some index, prefix, suffix, or equality. |
| KvFilter.EmptyNeedle | src/ui/util/uis.rs:189-196 | An empty needle matches every string except in exact mode, where it matches only the empty string. |
| KvFilter.ModeStrength | src/ui/util/uis.rs:189-196 | An exact match is a prefix and a suffix match, and each of those is a substring match. |
| KvFilter.DefaultFilter | src/ui/util/uis.rs:244-251 | The default filter is substring mode with an empty needle. |
| KvFilter.Test | src/ui/util/uis.rs:229-232 | A passing value is at least as long as the needle. In exact mode a value passes iff it equals the needle, and in every other mode an empty needle passes everything. |
| KvFilter.DefaultAcceptsAll | src/ui/util/uis.rs:229-251 | A default filter accepts every string. |
| KvFilter.NewMatcher | src/ui/util/uis.rs:259-263 | A new matcher has no filters. |
| KvFilter.AddFilter | src/ui/util/uis.rs:297-300 | "Add" appends one pair of default filters and keeps the others. |
| KvFilter.AnyEntry | src/ui/util/uis.rs:270-271 | True iff some entry passes both the key filter and the value filter. |
| KvFilter.AllFilters | src/ui/util/uis.rs:269-272 | True iff every filter pair is met by some entry. |
| KvFilter.MatchesKv | src/ui/util/uis.rs:265-273 | A collection matches iff each filter pair is met by at least one entry. Different pairs may be met by different entries. |
| KvFilter.MatcherBoundaries | src/ui/util/uis.rs:265-273 | With no filters everything matches. With any filter, an empty collection matches nothing. |
| KvFilter.AddFilterMatches | src/ui/util/uis.rs:297-300 | Adding a default pair changes the verdict only by also demanding a non-empty collection. |
| MetadataMirror.SetRequest | src/ui/metadata_editor.rs:31-38 | A set request carries the record's subject, the key, the record's type and its value. |
| MetadataMirror.ClearRequest | src/ui/metadata_editor.rs:40-47 | A clear request carries the same subject, key and type with no value. |
| MetadataMirror.SetAndClearAgree | src/ui/metadata_editor.rs:31-47 | Set and clear requests for one record differ only in the value. |
| MetadataMirror.NewEditor | src/ui/metadata_editor.rs:67-71 | A new editor knows no metadata. |
| MetadataMirror.AddMetadata | src/ui/metadata_editor.rs:73-79 | Registering adds an empty entry for an unknown id. For a known id nothing changes, not even the name. |
| MetadataMirror.AddProperty | src/ui/metadata_editor.rs:81-116 | The record for the key is replaced or added, and the other records and the name are kept. An unknown id is created under the given name with this one record. No other entry changes. |
| MetadataMirror.RemoveMetadata | src/ui/metadata_editor.rs:118-120 | The entry is gone and the others are unchanged. |
| MetadataMirror.RemoveProperty | src/ui/metadata_editor.rs:122-126 | Exactly that key goes from a known entry. An unknown id creates nothing. |
| MetadataMirror.ClearProperties | src/ui/metadata_editor.rs:128-132 | A known entry loses all records but keeps its name and composed rows. An unknown id creates nothing. |
| MetadataMirror.UpsertTwice | src/ui/metadata_editor.rs:95-115 | Upserting one key twice equals upserting the second value once. |
| MetadataMirror.RemoveUndoesAdd | src/ui/metadata_editor.rs:81-126 | On a metadata entry that is already known, removing a freshly added key restores the editor exactly. (On an unknown id the entry that `add_property` creates survives `remove_property`.) |
| MetadataMirror.MetadataExample | src/ui/metadata_editor.rs:81-126 | Two upserts of one key leave one record with the later value. A delete then empties it and keeps the entry. |
| MetadataMirror.ClearAllRequest | src/ui/metadata_editor.rs:139-142 | The per-metadata "Clear" sends a clear-all call to that id. |
| MetadataMirror.RecordRequest | src/ui/metadata_editor.rs:148-165 | A record's Set/Clear buttons exist iff the record exists. They send that record's set or clear request to its metadata. |
| MetadataMirror.EditRecordValue | src/ui/metadata_editor.rs:166-170 | Typing into a record's value field replaces that record's value in the mirror only. Subject, type, the other records, the name and the composed rows stay. Unknown records are untouched. |
| MetadataMirror.EditThenSet | src/ui/metadata_editor.rs:159-170 | After an edit, "Set" sends the edited value with the record's subject and type. "Clear" sends what it sent before. |
| MetadataMirror.AddUserRow | src/ui/metadata_editor.rs:185-194 | "Add Property" appends a blank composed row (subject 0, no type) and leaves the records alone. |
| MetadataMirror.SubmitUserRow | src/ui/metadata_editor.rs:228-234 | A composed row's "Add" sends that row's set request. It exists iff the row exists. |
| MetadataMirror.SetRequestRoundTrip | src/ui/metadata_editor.rs:31-38 | Applying the daemon's echo of a set request leaves the mirror unchanged, because the request carries all of the record. |
| Creation.NewCreator | src/ui/object_creator.rs:37-43 | The default creator has no factories, no selection and no rows. |
| Creation.AddFactory | src/ui/object_creator.rs:54-69 | Inserts or overwrites the factory for the id. Other factories, the selection and the rows are unchanged. |
| Creation.RemoveFactory | src/ui/object_creator.rs:71-73 | Removes only that factory and leaves the selection for revalidation. |
| Creation.Select | src/ui/object_creator.rs:94-98 | Choosing a combo entry selects its id and nothing else changes. |
| Creation.Resolve | src/ui/object_creator.rs:76-84 | The selection resolves iff it names a known factory, and then to that factory. |
| Creation.Revalidate | src/ui/object_creator.rs:76-84 | Afterwards any selection names a known factory. A resolving selection is kept and a dangling one is dropped. |
| Creation.RevalidateStable | src/ui/object_creator.rs:76-84 | Revalidation is idempotent and never changes which factory resolves. |
| Creation.Create | src/ui/object_creator.rs:117-131 | "Create" sends a request iff the selection resolves. The request carries the factory's type and name and the rows verbatim, and the rows are kept. |
| Creation.Clear | src/ui/object_creator.rs:133-136 | "Clear" drops the selection and every row and keeps the factories. |
| Creation.CreateAfterSelect | src/ui/object_creator.rs:54-131 | Adding a factory, selecting it and creating requests an object of that type and name with the current rows. |
| Creation.RemoveSelectedDisablesCreate | src/ui/object_creator.rs:71-84 | Removing the selected factory disables "Create", and the next revalidation clears the selection. |
| Creation.ClearDisablesCreate | src/ui/object_creator.rs:133-136 | After "Clear" nothing can be created. Selecting an id afterwards enables "Create" iff that id names a known factory. |

## Left out

- Liveness of a child reference: the source holds `Weak` pointers, and `upgrade` fails once the object is dropped, even if the daemon later reuses its id for a new object. Here a child is alive when its id is in the store. A stale reference to a reused id therefore counts as alive, survives pruning and is grouped as the new object, while the source prunes it.
- `KvMatcher`'s per-pair "Delete" button and the needle text field and mode selector of each filter: these are widget edits of the filter list. KvFilter.AddFilter and the `StringFilter` datatype cover what they produce.
- Threads, the `pipewire::channel` sender and the backend `Handle`: a send is modelled as a returned request, and a failed send (`.ok()`) is ignored as in the source.
- Event dispatch that calls `Global::new`, `set_props`, `set_info`, `add_subobject`, `add_factory` and the metadata upserts on backend events: `globals_store.rs` and `ui/mod.rs` are not part of this model. The operations themselves are modelled.
- egui rendering, layout widths (floating point), combo boxes, scroll areas, hover texts and the `global_info_button`: these have no state the mirror keeps.
- `draw_permissions` editing each row's object id in place (a drag value) and toggling individual flags, on fetched and staged permission rows, and the "Delete" button on staged permission rows (fetched rows have none): flag sets are plain `set<Permission>`, and these widget edits are not modelled. Row deletion is modelled for `EditableKVList` (KvEdit.DeleteRow).
- Widget edits of a composed metadata row's fields and the row's "Delete": key and value are text fields, subject is a number field, and the type checkbox switches the type between absent and an empty string. None of these edits involves other logic. KvEdit.EditRow and KvEdit.DeleteRow model the same kind of edit for key/value rows. The in-place edits of stored data (map-editor deletes and value edits, metadata record values) are modelled.
- Replacing a client's fetched permission list when the daemon answers (`ClientPermissions` event): this happens in dispatch, outside this model.
- The profiler, the context-properties and module-loading tools, `bind`, `connection`, `pods` and the remote-connection settings: these are not part of the mirror's core. Their requests appear only as constructors of `Protocol.Request`.
- `ObjectType` has the PipeWire types the mirror distinguishes plus `Other(name)` for the rest. The string names of types (`to_str`) are not modelled.
- Globals.UpdateProperties: as written in the source, it does not recompute name or parent. The name/parent invariant is restored only by the later `set_props` (Globals.UpdatePropertiesLeavesNameStale).
- Key order is code-point order on `char` sequences. This agrees with Rust's byte-wise `str` ordering for valid UTF-8. No normalisation or case folding exists in either.
- The `global` handle of a factory is kept as the factory global's id, because it is used only for the info button.
