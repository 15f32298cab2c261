/** The objects the library onboards ("users"), as far as the core looks at them. */
module Entities {
  import opened Wrappers
  import opened Query

  /** The stored identity of an existing Eloquent model: connection name, table, primary key. */
  datatype Record = Record(connection: string, table: string, key: nat)

  /**
   * An onboarded object: its `spl_object_id`, its class, its stored identity
   * when it is a model that `exists`, and the attribute values the callbacks
   * read.
   */
  datatype Entity = Entity(oid: nat, cls: string, record: Option<Record>, fields: map<string, Value>)
}
