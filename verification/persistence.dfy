/** The key-value store the task list is saved to (`UserDefaults`) and the
    encoding of the list. The encoding itself is not modelled: a stored value
    is either the encoding of a task list or data that does not decode. */
module Persistence {
  import opened Optional
  import opened Models

  /** The single key the task list is stored under. */
  const TasksKey: string := "SavedTasks"

  datatype StoredValue = EncodedTasks(tasks: seq<Task>) | Undecodable

  function Decode(v: StoredValue): Option<seq<Task>>
  {
    match v
    case EncodedTasks(ts) => Some(ts)
    case Undecodable => None
  }

  /** Encoding the whole list; it is lossless. */
  function Encode(ts: seq<Task>): (v: StoredValue)
    ensures Decode(v) == Some(ts)
  {
    EncodedTasks(ts)
  }

  /** The process-wide defaults database: a mutable map from keys to data. */
  class UserDefaults {
    var entries: map<string, StoredValue>

    constructor (entries: map<string, StoredValue>)
      ensures this.entries == entries
    {
      this.entries := entries;
    }
  }

  /** What loading restores from `entries`: the decoded list when the key is
      present and decodes, otherwise nothing. */
  function Restored(entries: map<string, StoredValue>): (r: Option<seq<Task>>)
    ensures r.Some? <==> TasksKey in entries && entries[TasksKey].EncodedTasks?
    ensures r.Some? ==> entries[TasksKey] == Encode(r.value)
  {
    if TasksKey in entries then Decode(entries[TasksKey]) else None
  }
}
