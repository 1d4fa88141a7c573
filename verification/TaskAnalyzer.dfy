/**
 The parameter signature resolver (backend/utils/hf_task_analyzer.py): for
 every task with a default model, the introspected parameters of its
 `preprocess` method, with internal parameters dropped, names corrected
 through the hand-maintained override table and the "any" / "REQUIRED"
 sentinels filled in.
 */
module TaskAnalyzer {
  import opened Wrappers
  import opened OrderedDict
  import opened Library
  import opened Registry

  /** `PARAMETER_NAME_MAP`: task to (introspected name to the name the
      pipeline really accepts). */
  const ParameterNameMap: map<string, map<string, string>> := map[
    "text-to-audio" := map["text" := "text_inputs"],
    "token-classification" := map["sentence" := "inputs"],
    "document-question-answering" := map["input" := "image"],
    "zero-shot-classification" := map["inputs" := "sequences"]
  ]

  /** The sentinel type of an unannotated parameter. */
  const AnyType: string := "any"

  /** The sentinel default of a parameter without a default. */
  const RequiredMarker: string := "REQUIRED"

  /** One entry of a task's parameter list. */
  datatype ParamSpec = ParamSpec(name: string, typ: string, defaultValue: Value)

  /** What the resolver stores for one task. */
  datatype TaskDetail = TaskDetail(defaultModel: string, parameters: seq<ParamSpec>)

  /** Parameter names the resolver never reports. */
  predicate IsInternal(name: string)
  {
    name in {"self", "args", "kwargs"}
  }

  /** `PARAMETER_NAME_MAP.get(task, {}).get(raw, raw)`. */
  function CorrectName(task: string, raw: string): string
  {
    var overrides := if task in ParameterNameMap then ParameterNameMap[task] else map[];
    if raw in overrides then overrides[raw] else raw
  }

  /** The entry built for one non-internal parameter. */
  function ResolveParam(task: string, p: Param): (spec: ParamSpec)
    ensures spec.name == CorrectName(task, p.name)
    ensures p.annotation.None? ==> spec.typ == AnyType
    ensures p.annotation.Some? ==> spec.typ == p.annotation.value
    ensures p.defaultValue.None? ==> spec.defaultValue == Str(RequiredMarker)
    ensures p.defaultValue.Some? ==> spec.defaultValue == p.defaultValue.value
  {
    ParamSpec(
      CorrectName(task, p.name),
      match p.annotation case Some(a) => a case None => AnyType,
      match p.defaultValue case Some(v) => v case None => Str(RequiredMarker))
  }

  /** The loop over the signature's parameters, skipping internal ones. */
  function ResolveParams(task: string, ps: seq<Param>): (r: seq<ParamSpec>)
    ensures |r| <= |ps|
  {
    if |ps| == 0 then []
    else
      var rest := ResolveParams(task, ps[1..]);
      if IsInternal(ps[0].name) then rest
      else [ResolveParam(task, ps[0])] + rest
  }

  /** The parameters that are not internal, in signature order. */
  function NonInternal(ps: seq<Param>): (r: seq<Param>)
    ensures forall p :: p in r <==> p in ps && !IsInternal(p.name)
  {
    if |ps| == 0 then []
    else if IsInternal(ps[0].name) then NonInternal(ps[1..])
    else [ps[0]] + NonInternal(ps[1..])
  }

  /** Every non-internal parameter yields exactly one entry, in signature
      order, and internal ones yield none: the resolved list is the
      non-internal parameters, each resolved. */
  lemma {:induction false} ResolveParamsPointwise(task: string, ps: seq<Param>)
    ensures |ResolveParams(task, ps)| == |NonInternal(ps)|
    ensures forall k :: 0 <= k < |NonInternal(ps)| ==>
              ResolveParams(task, ps)[k] == ResolveParam(task, NonInternal(ps)[k])
  {
    if |ps| > 0 {
      ResolveParamsPointwise(task, ps[1..]);
      if !IsInternal(ps[0].name) {
        ResolveParamsStep(task, ps, ResolveParams(task, ps[1..]), NonInternal(ps[1..]));
      }
    }
  }

  /** One step of the pointwise proof: a non-internal head adds its entry in front. */
  lemma ResolveParamsStep(task: string, ps: seq<Param>, rest: seq<ParamSpec>, nrest: seq<Param>)
    requires |ps| > 0 && !IsInternal(ps[0].name)
    requires rest == ResolveParams(task, ps[1..]) && nrest == NonInternal(ps[1..])
    requires |rest| == |nrest|
    requires forall k :: 0 <= k < |nrest| ==> rest[k] == ResolveParam(task, nrest[k])
    ensures |ResolveParams(task, ps)| == |NonInternal(ps)|
    ensures forall k :: 0 <= k < |NonInternal(ps)| ==>
              ResolveParams(task, ps)[k] == ResolveParam(task, NonInternal(ps)[k])
  {
    var r, n := [ResolveParam(task, ps[0])] + rest, [ps[0]] + nrest;
    assert ResolveParams(task, ps) == r;
    assert NonInternal(ps) == n;
    assert r[1..] == rest && n[1..] == nrest;
  }

  /** Every entry comes from a non-internal parameter, and every
      non-internal parameter yields its entry. */
  lemma ResolveParamsMembers(task: string, ps: seq<Param>)
    ensures forall q :: q in ResolveParams(task, ps) ==>
              exists p :: p in ps && !IsInternal(p.name) && q == ResolveParam(task, p)
    ensures forall p :: p in ps && !IsInternal(p.name) ==> ResolveParam(task, p) in ResolveParams(task, ps)
  {
    ResolveParamsPointwise(task, ps);
    var r, n := ResolveParams(task, ps), NonInternal(ps);
    forall q | q in r
      ensures exists p :: p in ps && !IsInternal(p.name) && q == ResolveParam(task, p)
    {
      var k :| 0 <= k < |r| && r[k] == q;
      assert n[k] in n;
    }
    forall p | p in ps && !IsInternal(p.name)
      ensures ResolveParam(task, p) in r
    {
      assert p in n;
      var k :| 0 <= k < |n| && n[k] == p;
      assert r[k] == ResolveParam(task, p);
    }
  }

  /** Resolving a concatenated signature resolves each part. */
  lemma {:induction false} ResolveParamsAppend(task: string, a: seq<Param>, b: seq<Param>)
    ensures ResolveParams(task, a + b) == ResolveParams(task, a) + ResolveParams(task, b)
  {
    if |a| > 0 {
      assert (a + b)[1..] == a[1..] + b;
      ResolveParamsAppend(task, a[1..], b);
    } else {
      assert a + b == b;
    }
  }

  /** A task absent from the override table keeps every introspected name. */
  lemma UnlistedTaskKeepsNames(task: string, ps: seq<Param>)
    requires task !in ParameterNameMap
    ensures |ResolveParams(task, ps)| == |NonInternal(ps)|
    ensures forall k :: 0 <= k < |ResolveParams(task, ps)| ==>
              ResolveParams(task, ps)[k].name == NonInternal(ps)[k].name
  {
    ResolveParamsPointwise(task, ps);
  }

  /** In the shipped table no corrected name is itself corrected again. */
  lemma OverrideTableAcyclic()
    ensures forall t, raw :: t in ParameterNameMap && raw in ParameterNameMap[t] ==>
              ParameterNameMap[t][raw] !in ParameterNameMap[t]
  {
  }

  /** A raw name that has an override never appears among the task's
      resolved names. */
  lemma OverriddenNameAbsent(task: string, ps: seq<Param>, raw: string)
    requires task in ParameterNameMap && raw in ParameterNameMap[task]
    ensures forall q :: q in ResolveParams(task, ps) ==> q.name != raw
  {
    OverrideTableAcyclic();
    ResolveParamsMembers(task, ps);
  }

  /** A raw name that has an override and occurs in the signature shows up
      under its corrected name. */
  lemma CorrectedNamePresent(task: string, ps: seq<Param>, raw: string)
    requires task in ParameterNameMap && raw in ParameterNameMap[task]
    requires exists p :: p in ps && p.name == raw
    ensures exists q :: q in ResolveParams(task, ps) && q.name == ParameterNameMap[task][raw]
  {
    var p :| p in ps && p.name == raw;
    ResolveParamsMembers(task, ps);
    assert ResolveParam(task, p) in ResolveParams(task, ps);
  }

  /** What a reader of an entry can recover of the parameter's annotation
      and default: the sentinels read back as "absent". */
  function Unresolve(spec: ParamSpec): (Option<string>, Option<Value>)
  {
    (if spec.typ == AnyType then None else Some(spec.typ),
     if spec.defaultValue == Str(RequiredMarker) then None else Some(spec.defaultValue))
  }

  /** Reading an entry back recovers the parameter's annotation and default
      exactly when neither is itself a sentinel: the annotation "any" and
      the default "REQUIRED" are the only values the entry loses. */
  lemma ResolveParamRoundTrip(task: string, p: Param)
    ensures Unresolve(ResolveParam(task, p)) == (p.annotation, p.defaultValue) <==>
              p.annotation != Some(AnyType) && p.defaultValue != Some(Str(RequiredMarker))
  {
  }

  /** "REQUIRED" is an in-band sentinel: a parameter without a default and
      one whose default is the string "REQUIRED" resolve to the same entry. */
  lemma RequiredSentinelAmbiguous(task: string, name: string)
    ensures ResolveParam(task, Param(name, None, None)) ==
            ResolveParam(task, Param(name, None, Some(Str("REQUIRED"))))
    ensures Param(name, None, None) != Param(name, None, Some(Str("REQUIRED")))
  {
  }

  /** The inspection of one base task, inside the `try`: a missing "impl"
      or a failing introspection skips the task. */
  function InspectTask(tasks: TaskTable, task: string): (r: Option<seq<ParamSpec>>)
  {
    match Get(tasks, task)
    case None => None
    case Some(details) =>
      match details.impl
      case None => None
      case Some(impl) =>
        match impl.preprocess
        case None => None
        case Some(sig) => Some(ResolveParams(task, sig))
  }

  /** The loop over the base tasks. */
  function InspectAll(tasks: TaskTable, base: seq<(string, string)>): (r: seq<(string, TaskDetail)>)
    ensures IsSubsequence(Keys(r), Keys(base))
  {
    if |base| == 0 then []
    else
      var (task, model) := base[0];
      var rest := InspectAll(tasks, base[1..]);
      assert Keys(base)[1..] == Keys(base[1..]);
      match InspectTask(tasks, task)
      case None =>
        SkipHead(Keys(rest), Keys(base));
        rest
      case Some(parameters) =>
        assert Keys([(task, TaskDetail(model, parameters))] + rest)[1..] == Keys(rest);
        [(task, TaskDetail(model, parameters))] + rest
  }

  /** `get_full_task_details()`. The base-task comprehension lies outside
      the `try`, so a row that names a model without a readable identifier
      makes the whole call raise. */
  function GetFullTaskDetails(tasks: TaskTable): (r: Result<seq<(string, TaskDetail)>, LookupError>)
    ensures r.Failure? <==> GetSupportedModels(tasks).Failure?
    ensures r.Success? ==> IsSubsequence(Keys(r.value), Keys(tasks))
  {
    match GetSupportedModels(tasks)
    case Failure(err) => Failure(err)
    case Success(base) =>
      SupportedModelsOrdered(tasks);
      SubsequenceTransitive(Keys(InspectAll(tasks, base)), Keys(base), Keys(tasks));
      Success(InspectAll(tasks, base))
  }

  /** The resolver's answer for one task name, as a reference: present
      exactly when the table row names a readable default model and its
      `preprocess` signature can be introspected. */
  function ExpectedDetail(tasks: TaskTable, t: string): Option<TaskDetail>
  {
    match Get(tasks, t)
    case None => None
    case Some(e) =>
      match (RowModel(e), InspectTask(tasks, t))
      case (Some(model), Some(parameters)) => Some(TaskDetail(model, parameters))
      case _ => None
  }

  lemma {:induction false} InspectAllLookup(tasks: TaskTable, base: seq<(string, string)>, t: string)
    requires DistinctKeys(base)
    ensures Get(InspectAll(tasks, base), t) ==
              (match Get(base, t)
               case None => None
               case Some(model) =>
                 match InspectTask(tasks, t)
                 case None => None
                 case Some(parameters) => Some(TaskDetail(model, parameters)))
  {
    if |base| > 0 {
      assert DistinctKeys(base[1..]);
      InspectAllLookup(tasks, base[1..], t);
    }
  }

  /** Looking a task up in the resolver's result gives its default model and
      resolved parameters when the task is considered and inspectable, and
      nothing otherwise; every other considered task is present. */
  lemma TaskDetailsLookup(tasks: TaskTable, t: string)
    requires DistinctKeys(tasks)
    requires GetFullTaskDetails(tasks).Success?
    ensures Get(GetFullTaskDetails(tasks).value, t) == ExpectedDetail(tasks, t)
  {
    var base := GetSupportedModels(tasks).value;
    SupportedModelsDistinct(tasks);
    SupportedModelsLookup(tasks, t);
    InspectAllLookup(tasks, base, t);
  }
}
