/**
 The task registry: every task of the library's table that names a default
 model, with the first PyTorch identifier of that model
 (backend/utils/hf_get_pipeline_models.py).
 */
module Registry {
  import opened Wrappers
  import opened OrderedDict
  import opened Library

  /** `"model" in details.get("default", {})`: a missing "default" reads as empty. */
  predicate HasDefaultModel(e: TaskEntry)
  {
    e.defaultEntry.Some? && e.defaultEntry.value.model.Some?
  }

  /** `details["default"]["model"]["pt"][0]`, which raises when "pt" is
      missing or empty. */
  function DefaultModelOf(e: TaskEntry): (r: Result<string, LookupError>)
    requires HasDefaultModel(e)
    ensures r.Success? <==> (var pt := e.defaultEntry.value.model.value.pt; pt.Some? && |pt.value| > 0)
    ensures r.Success? ==> r.value == e.defaultEntry.value.model.value.pt.value[0]
  {
    match e.defaultEntry.value.model.value.pt
    case None => Failure(KeyError("pt"))
    case Some(ids) => if |ids| == 0 then Failure(IndexError) else Success(ids[0])
  }

  /** What the registry holds for one table row: Some(model) when the row
      passes the filter and its model identifier can be read. */
  function RowModel(e: TaskEntry): Option<string>
  {
    if HasDefaultModel(e) && DefaultModelOf(e).Success? then Some(DefaultModelOf(e).value) else None
  }

  /** A row that passes the filter but whose model identifier cannot be read. */
  predicate BrokenRow(e: TaskEntry)
  {
    HasDefaultModel(e) && DefaultModelOf(e).Failure?
  }

  /** `get_supported_models()`: the dictionary comprehension over the task
      table. It is evaluated in table order and raises at the first row that
      passes the filter but has no readable model identifier. */
  function GetSupportedModels(tasks: TaskTable): (r: Result<seq<(string, string)>, LookupError>)
    ensures r.Success? <==> forall i :: 0 <= i < |tasks| ==> !BrokenRow(tasks[i].1)
    ensures r.Failure? ==> exists i :: 0 <= i < |tasks| && BrokenRow(tasks[i].1)
                                   && DefaultModelOf(tasks[i].1).error == r.error
                                   && forall j :: 0 <= j < i ==> !BrokenRow(tasks[j].1)
    ensures r.Success? ==> |r.value| <= |tasks|
    ensures r.Success? ==> forall k :: 0 <= k < |r.value| ==>
              exists i :: 0 <= i < |tasks| && tasks[i].0 == r.value[k].0 && RowModel(tasks[i].1) == Some(r.value[k].1)
  {
    if |tasks| == 0 then Success([])
    else
      var (task, details) := tasks[0];
      var rest := GetSupportedModels(tasks[1..]);
      assert forall i :: 1 <= i < |tasks| ==> tasks[i] == tasks[1..][i - 1];
      if !HasDefaultModel(details) then rest
      else match DefaultModelOf(details)
        case Failure(err) => Failure(err)
        case Success(model) =>
          match rest
          case Failure(err) => Failure(err)
          case Success(more) =>
            assert forall k :: 1 <= k < |more| + 1 ==> ([(task, model)] + more)[k] == more[k - 1];
            Success([(task, model)] + more)
  }

  /** The registry as a dictionary: looking a task up in the result gives
      exactly the model the table row names, and nothing for rows without a
      default model or for names absent from the table. */
  lemma {:induction false} SupportedModelsLookup(tasks: TaskTable, t: string)
    requires DistinctKeys(tasks)
    requires GetSupportedModels(tasks).Success?
    ensures Get(GetSupportedModels(tasks).value, t) ==
              (match Get(tasks, t) case None => None case Some(e) => RowModel(e))
  {
    if |tasks| > 0 {
      assert DistinctKeys(tasks[1..]);
      assert forall i :: 1 <= i < |tasks| ==> tasks[i] == tasks[1..][i - 1];
      SupportedModelsLookup(tasks[1..], t);
    }
  }

  /** The result is a dictionary whose keys keep the table's order. */
  lemma {:induction false} SupportedModelsOrdered(tasks: TaskTable)
    requires GetSupportedModels(tasks).Success?
    ensures IsSubsequence(Keys(GetSupportedModels(tasks).value), Keys(tasks))
  {
    if |tasks| > 0 {
      assert forall i :: 1 <= i < |tasks| ==> tasks[i] == tasks[1..][i - 1];
      SupportedModelsOrdered(tasks[1..]);
      var r := GetSupportedModels(tasks).value;
      var rest := GetSupportedModels(tasks[1..]).value;
      assert Keys(tasks)[1..] == Keys(tasks[1..]);
      if RowModel(tasks[0].1).Some? {
        assert Keys(r)[1..] == Keys(rest);
      } else {
        SkipHead(Keys(r), Keys(tasks));
      }
    }
  }

  /** No task is added or renamed: with distinct table keys the result has distinct keys. */
  lemma SupportedModelsDistinct(tasks: TaskTable)
    requires DistinctKeys(tasks)
    requires GetSupportedModels(tasks).Success?
    ensures DistinctKeys(GetSupportedModels(tasks).value)
  {
    var r := GetSupportedModels(tasks).value;
    SupportedModelsOrdered(tasks);
    forall i, j | 0 <= i < j < |r|
      ensures r[i].0 != r[j].0
    {
      SubsequenceDistinct(Keys(r), Keys(tasks), i, j);
    }
  }

  /** Two positions of a subsequence of a duplicate-free sequence hold different elements. */
  lemma {:induction false} SubsequenceDistinct(a: seq<string>, b: seq<string>, i: nat, j: nat)
    requires IsSubsequence(a, b)
    requires forall x, y :: 0 <= x < y < |b| ==> b[x] != b[y]
    requires i < j < |a|
    ensures a[i] != a[j]
    decreases |b|
  {
    if a[0] == b[0] {
      if i == 0 {
        SubsequenceMembership(a[1..], b[1..], a[j]);
        assert a[1..][j - 1] == a[j];
      } else {
        SubsequenceDistinct(a[1..], b[1..], i - 1, j - 1);
      }
    } else {
      SubsequenceDistinct(a, b[1..], i, j);
    }
  }
}
