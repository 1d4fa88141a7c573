/**
 The inference library's task table and introspection results, taken as
 input data. `SUPPORTED_TASKS` is an ordered dictionary from task name to a
 details record; each record optionally carries an implementation class
 ("impl") and a default entry ("default") that optionally names a default
 model ("model", whose "pt" list holds PyTorch model identifiers).
 */
module Library {
  import opened Wrappers

  /** The Python values that flow through the system. `Other` stands for any
      object the model does not look inside (pipeline results, default
      values that are not strings). */
  datatype Value =
    | Str(s: string)
    | StrList(items: seq<string>)
    | StrDict(fields: map<string, string>)
    | Other(id: nat)

  /** One parameter as reported by signature introspection. `annotation` is
      the stringified annotation (None when the parameter has none) and
      `defaultValue` the declared default (None when there is none). */
  datatype Param = Param(name: string, annotation: Option<string>, defaultValue: Option<Value>)

  /** A pipeline implementation class. `preprocess` is the parameter list of
      its `preprocess` method, or None when introspecting it raises. */
  datatype Impl = Impl(preprocess: Option<seq<Param>>)

  /** The "model" entry of a task default; `pt` is None when the key is missing. */
  datatype ModelSpec = ModelSpec(pt: Option<seq<string>>)

  /** The "default" entry of a task; `model` is None when the key is missing. */
  datatype TaskDefault = TaskDefault(model: Option<ModelSpec>)

  /** One row of the task table. */
  datatype TaskEntry = TaskEntry(impl: Option<Impl>, defaultEntry: Option<TaskDefault>)

  /** The errors a dictionary or list subscript can raise. */
  datatype LookupError = KeyError(key: string) | IndexError

  /** An opaque reference to a library object (a model, a processor, a pipeline). */
  type Handle = nat

  /** The task table: task name to details, in the library's order. */
  type TaskTable = seq<(string, TaskEntry)>
}
