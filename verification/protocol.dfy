/** The request vocabulary the UI sends to the daemon thread
    (`src/backend/mod.rs`), as plain data. Sending a request is modelled by
    returning it: the operations of the mirror return the sequence of
    requests they would have sent, in order. */
module Protocol {
  import opened Base
  import opened Props

  /** PipeWire object types the mirror distinguishes; every other type the
      daemon reports is `Other` with its type name. */
  datatype ObjectType =
    | Client | Device | Node | Port | Link | Factory | Module
    | Metadata | Core | Profiler | Other(typeName: string)

  /** Permission flags: read, write, execute, metadata, link. */
  datatype Permission = R | W | X | M | L

  /** One entry of a client's permission list: the object id it applies to
      and the granted flags. */
  datatype Permissions = Permissions(id: u32, flags: set<Permission>)

  datatype ObjectMethod =
    | ClientGetPermissions(index: u32, num: u32)
    | ClientUpdatePermissions(permissions: seq<Permissions>)
    | ClientUpdateProperties(props: PropMap)
    | MetadataSetProperty(subject: u32, key: string, propType: Option<string>, value: Option<string>)
    | MetadataClear

  datatype Request =
    | Stop
    | CreateObject(objectType: ObjectType, factoryName: string, createProps: seq<Entry>)
    | DestroyObject(id: u32)
    | LoadModule(moduleDir: Option<string>, name: string, args: Option<string>, moduleProps: Option<seq<Entry>>)
    | GetContextProperties
    | UpdateContextProperties(contextProps: PropMap)
    | CallObjectMethod(id: u32, call: ObjectMethod)
}
