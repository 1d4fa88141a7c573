/**
 The maintenance script that discovers parameter-name mismatches
 (scripts/discover_param_names.py): dummy arguments are guessed from
 parameter names, the pipeline is called with them, and a TypeError that
 names a missing positional argument is turned into an override entry.
 Model loading, pipeline construction and the pipeline call are parameters
 of the model: `prepares(task, model)` says whether loading and construction
 succeed, `call(task, kwargs)` what the call does.
 */
module Discovery {
  import opened Wrappers
  import opened OrderedDict
  import opened Library
  import opened Registry
  import opened ErrorPattern
  import opened TaskAnalyzer

  const ImagePath: string := "test_assets/sample.jpg"
  const AudioPath: string := "test_assets/sample.wav"
  const VideoPath: string := "test_assets/sample.mp4"
  const MaskSentence: string := "Hello, I'm a <mask> model."
  const TestSentence: string := "This is a test sentence."
  const Labels: seq<string> := ["first label", "second label"]
  const Example: map<string, string> := map["question" := "Who?", "context" := "He did it."]

  /** A parameter record as the dummy-data factory reads it: a "name" and
      an optional "type" entry. */
  datatype ParamRecord = ParamRecord(name: string, typ: Option<string>)

  /** Python's `sub in s` on strings. */
  predicate Contains(s: string, sub: string)
  {
    exists k: nat | k <= |s| :: StartsAt(s, k, sub)
  }

  /** `parameters[0].get("type", "")`, read only when the list is non-empty. */
  function FirstType(params: seq<ParamRecord>): string
  {
    if |params| == 0 then "" else match params[0].typ case Some(t) => t case None => ""
  }

  /** The value the if/elif chain assigns to one name, or None when no branch fires. */
  function DummyValue(name: string, firstType: string): Option<Value>
  {
    if Contains(name, "image") then Some(Str(ImagePath))
    else if Contains(name, "video") then Some(Str(VideoPath))
    else if Contains(name, "audio") then Some(Str(AudioPath))
    else if Contains(name, "inputs") then
      Some(Str(if Contains(firstType, "fill-mask") then MaskSentence else TestSentence))
    else if Contains(name, "candidate_labels") then Some(StrList(Labels))
    else if Contains(name, "example") then Some(StrDict(Example))
    else if name == "sequences" then Some(Str(TestSentence))
    else None
  }

  /** One rule of the priority list: a substring test, or an exact test,
      and the value it assigns. */
  datatype Rule = Rule(pattern: string, exact: bool, value: Value)

  predicate Fires(r: Rule, name: string)
  {
    if r.exact then name == r.pattern else Contains(name, r.pattern)
  }

  /** The rules in priority order, as an independent table. */
  function Rules(firstType: string): seq<Rule>
  {
    [ Rule("image", false, Str(ImagePath)),
      Rule("video", false, Str(VideoPath)),
      Rule("audio", false, Str(AudioPath)),
      Rule("inputs", false, Str(if Contains(firstType, "fill-mask") then MaskSentence else TestSentence)),
      Rule("candidate_labels", false, StrList(Labels)),
      Rule("example", false, StrDict(Example)),
      Rule("sequences", true, Str(TestSentence)) ]
  }

  /** First-match semantics over a rule list. */
  function FirstFiring(rules: seq<Rule>, name: string): (r: Option<Value>)
    ensures r.None? <==> forall k :: 0 <= k < |rules| ==> !Fires(rules[k], name)
    ensures r.Some? ==> exists k :: 0 <= k < |rules| && Fires(rules[k], name) && r.value == rules[k].value
                                 && forall j :: 0 <= j < k ==> !Fires(rules[j], name)
  {
    if |rules| == 0 then None
    else if Fires(rules[0], name) then Some(rules[0].value)
    else
      var r := FirstFiring(rules[1..], name);
      assert forall k :: 1 <= k < |rules| ==> rules[k] == rules[1..][k - 1];
      r
  }

  /** The if/elif chain is the first-match rule over the priority table:
      each name gets the value of the first rule that fires, or none. */
  lemma DummyValueIsFirstMatch(name: string, firstType: string)
    ensures DummyValue(name, firstType) == FirstFiring(Rules(firstType), name)
  {
    var r0 := Rules(firstType);
    var r1 := r0[1..];
    var r2 := r1[1..];
    var r3 := r2[1..];
    var r4 := r3[1..];
    var r5 := r4[1..];
    var r6 := r5[1..];
    assert r6[1..] == [];
    assert FirstFiring(r6, name) == if Fires(r6[0], name) then Some(r6[0].value) else None;
    assert FirstFiring(r5, name) == if Fires(r5[0], name) then Some(r5[0].value) else FirstFiring(r6, name);
    assert FirstFiring(r4, name) == if Fires(r4[0], name) then Some(r4[0].value) else FirstFiring(r5, name);
    assert FirstFiring(r3, name) == if Fires(r3[0], name) then Some(r3[0].value) else FirstFiring(r4, name);
    assert FirstFiring(r2, name) == if Fires(r2[0], name) then Some(r2[0].value) else FirstFiring(r3, name);
    assert FirstFiring(r1, name) == if Fires(r1[0], name) then Some(r1[0].value) else FirstFiring(r2, name);
    assert FirstFiring(r0, name) == if Fires(r0[0], name) then Some(r0[0].value) else FirstFiring(r1, name);
  }

  /** `sequences` is matched exactly, not as a substring: the name itself
      gets the test sentence and "input_sequences" gets no entry. */
  lemma SequencesIsExact(firstType: string)
    ensures DummyValue("sequences", firstType) == Some(Str(TestSentence))
    ensures DummyValue("input_sequences", firstType) == None
  {
    LacksCharacter("sequences", "image", 1);
    LacksCharacter("sequences", "video", 0);
    LacksCharacter("sequences", "audio", 0);
    LacksCharacter("sequences", "inputs", 0);
    LacksCharacter("sequences", "candidate_labels", 1);
    LacksCharacter("sequences", "example", 1);
    LacksCharacter("input_sequences", "image", 1);
    LacksCharacter("input_sequences", "video", 0);
    LacksCharacter("input_sequences", "audio", 0);
    InputSequencesLacksInputs();
    LacksCharacter("input_sequences", "candidate_labels", 1);
    LacksCharacter("input_sequences", "example", 1);
  }

  /** A string does not contain a text one of whose characters it lacks. */
  lemma LacksCharacter(s: string, sub: string, j: nat)
    requires j < |sub| && sub[j] !in s
    ensures !Contains(s, sub)
  {
  }

  lemma InputSequencesLacksInputs()
    ensures !Contains("input_sequences", "inputs")
  {
    var s := "input_sequences";
    forall k: nat | k <= |s|
      ensures !StartsAt(s, k, "inputs")
    {
      if k + 6 <= |s| {
        assert s[k..k + 6][0] == s[k] && s[k..k + 6][5] == s[k + 5];
      }
    }
  }

  /** The dummy-data dictionary after the first n parameters. */
  function Fill(params: seq<ParamRecord>, firstType: string, n: nat): (d: map<string, Value>)
    requires n <= |params|
    ensures forall k :: k in d <==> (exists i :: 0 <= i < n && params[i].name == k) && DummyValue(k, firstType).Some?
    ensures forall k :: k in d ==> d[k] == DummyValue(k, firstType).value
  {
    if n == 0 then map[]
    else
      var d := Fill(params, firstType, n - 1);
      var name := params[n - 1].name;
      match DummyValue(name, firstType)
      case None => d
      case Some(v) => d[name := v]
  }

  /** `create_dummy_data(parameters)`: a name gets an entry exactly when it
      is a parameter name and some rule fires for it, and the entry is that
      rule's value; keys are always parameter names. */
  function CreateDummyData(params: seq<ParamRecord>): (d: map<string, Value>)
    ensures forall k :: k in d <==> (exists i :: 0 <= i < |params| && params[i].name == k) && DummyValue(k, FirstType(params)).Some?
    ensures forall k :: k in d ==> d[k] == DummyValue(k, FirstType(params)).value
  {
    Fill(params, FirstType(params), |params|)
  }

  /** The parameters the script passes on: not internal and without a default. */
  predicate IsRequired(p: Param)
  {
    !IsInternal(p.name) && p.defaultValue.None?
  }

  /** The introspected list (scripts/discover_param_names.py:80-84): the
      required parameters in signature order, as records holding only a name. */
  function IntrospectRequired(sig: seq<Param>): (r: seq<ParamRecord>)
    ensures |r| <= |sig|
    ensures forall k :: 0 <= k < |r| ==> r[k].typ.None?
    ensures forall n :: ParamRecord(n, None) in r <==> exists p :: p in sig && p.name == n && IsRequired(p)
    ensures |r| > 0 <==> exists i :: 0 <= i < |sig| && IsRequired(sig[i])
    ensures |r| > 0 ==> exists i :: 0 <= i < |sig| && IsRequired(sig[i]) && r[0].name == sig[i].name
                                  && forall j :: 0 <= j < i ==> !IsRequired(sig[j])
  {
    if |sig| == 0 then []
    else
      var rest := IntrospectRequired(sig[1..]);
      assert forall i :: 1 <= i < |sig| ==> sig[i] == sig[1..][i - 1];
      assert forall p :: p in sig <==> p == sig[0] || p in sig[1..];
      if IsRequired(sig[0]) then [ParamRecord(sig[0].name, None)] + rest
      else rest
  }

  /** The required parameters, in signature order: the reference the
      introspected list is compared with. */
  function RequiredParams(sig: seq<Param>): (r: seq<Param>)
    ensures forall p :: p in r <==> p in sig && IsRequired(p)
  {
    if |sig| == 0 then []
    else if IsRequired(sig[0]) then [sig[0]] + RequiredParams(sig[1..])
    else RequiredParams(sig[1..])
  }

  /** The required parameters keep their signature order. */
  lemma {:induction false} RequiredParamsOrdered(sig: seq<Param>)
    ensures IsSubsequence(RequiredParams(sig), sig)
  {
    if |sig| > 0 {
      RequiredParamsOrdered(sig[1..]);
      var rest := RequiredParams(sig[1..]);
      if IsRequired(sig[0]) {
        assert ([sig[0]] + rest)[1..] == rest;
      } else {
        SkipHead(rest, sig);
      }
    }
  }

  /** The introspected list holds one record per required parameter, in
      signature order: record k is the name of the k-th required parameter,
      with no type. */
  lemma {:induction false} IntrospectRequiredPointwise(sig: seq<Param>)
    ensures |IntrospectRequired(sig)| == |RequiredParams(sig)|
    ensures forall k :: 0 <= k < |RequiredParams(sig)| ==>
              IntrospectRequired(sig)[k] == ParamRecord(RequiredParams(sig)[k].name, None)
  {
    if |sig| > 0 {
      IntrospectRequiredPointwise(sig[1..]);
      var rest, nrest := IntrospectRequired(sig[1..]), RequiredParams(sig[1..]);
      if IsRequired(sig[0]) {
        IntrospectStep(sig, rest, nrest);
      }
    }
  }

  /** One step of the pointwise proof: a required head adds one record in front. */
  lemma IntrospectStep(sig: seq<Param>, rest: seq<ParamRecord>, nrest: seq<Param>)
    requires |sig| > 0 && IsRequired(sig[0])
    requires rest == IntrospectRequired(sig[1..]) && nrest == RequiredParams(sig[1..])
    requires |rest| == |nrest|
    requires forall k :: 0 <= k < |nrest| ==> rest[k] == ParamRecord(nrest[k].name, None)
    ensures |IntrospectRequired(sig)| == |RequiredParams(sig)|
    ensures forall k :: 0 <= k < |RequiredParams(sig)| ==>
              IntrospectRequired(sig)[k] == ParamRecord(RequiredParams(sig)[k].name, None)
  {
    var r, n := [ParamRecord(sig[0].name, None)] + rest, [sig[0]] + nrest;
    assert IntrospectRequired(sig) == r;
    assert RequiredParams(sig) == n;
    assert r[1..] == rest && n[1..] == nrest;
  }

  /** Records built by introspection carry no "type", so the fill-mask
      sentence is never chosen on this path. */
  lemma IntrospectedUseGenericSentence(sig: seq<Param>)
    ensures forall k :: k in CreateDummyData(IntrospectRequired(sig)) ==>
              CreateDummyData(IntrospectRequired(sig))[k] != Str(MaskSentence)
  {
    var params := IntrospectRequired(sig);
    assert FirstType(params) == "";
    NeverMaskWithoutType();
  }

  /** With an empty "type" no name is given the fill-mask sentence. */
  lemma NeverMaskWithoutType()
    ensures forall name :: DummyValue(name, "") != Some(Str(MaskSentence))
  {
    assert !Contains("", "fill-mask");
  }

  /** `"impl" in details and "default" in details and "model" in details["default"]`. */
  predicate Discoverable(e: TaskEntry)
  {
    e.impl.Some? && HasDefaultModel(e)
  }

  /** The base-task dictionary of the script, in table order. */
  function DiscoverableTasks(tasks: TaskTable): (r: TaskTable)
    ensures forall k :: 0 <= k < |r| ==> Discoverable(r[k].1)
  {
    if |tasks| == 0 then []
    else if Discoverable(tasks[0].1) then [tasks[0]] + DiscoverableTasks(tasks[1..])
    else DiscoverableTasks(tasks[1..])
  }

  lemma {:induction false} DiscoverableTasksLookup(tasks: TaskTable, t: string)
    requires DistinctKeys(tasks)
    ensures DistinctKeys(DiscoverableTasks(tasks))
    ensures Get(DiscoverableTasks(tasks), t) ==
              (match Get(tasks, t) case Some(e) => if Discoverable(e) then Some(e) else None case None => None)
  {
    if |tasks| > 0 {
      assert DistinctKeys(tasks[1..]);
      DiscoverableTasksLookup(tasks[1..], t);
      var rest := DiscoverableTasks(tasks[1..]);
      if Discoverable(tasks[0].1) {
        forall k | 0 <= k < |rest|
          ensures rest[k].0 != tasks[0].0
        {
          DiscoverableTasksLookup(tasks[1..], rest[k].0);
          assert rest[k].0 in Keys(rest);
          assert Get(rest, rest[k].0).Some?;
          assert Get(tasks[1..], tasks[0].0).None? by {
            assert tasks[0].0 !in Keys(tasks[1..]);
          }
        }
      }
    }
  }

  /** What the pipeline call at scripts/discover_param_names.py:89 does. */
  datatype CallOutcome = Returned | RaisedTypeError(message: string) | RaisedOther(message: string)

  /** The override-recording rule for one TypeError message: the first
      introspected name is mapped to the captured name when the message
      matches, the list is non-empty and the two names differ. */
  function RecordRule(introspected: seq<ParamRecord>, message: string): (r: Option<(string, string)>)
    ensures r.Some? <==> Search(message).Some? && |introspected| > 0 && introspected[0].name != Search(message).value
    ensures r.Some? ==> r.value == (introspected[0].name, Search(message).value)
  {
    match Search(message)
    case None => None
    case Some(captured) =>
      if |introspected| > 0 && introspected[0].name != captured then Some((introspected[0].name, captured))
      else None
  }

  /** The rule against the pattern's language: a pair is recorded exactly
      when the introspected list is non-empty, the pair's key is its first
      name, the pair's value is the word captured by the leftmost match of
      the pattern in the message, and the two differ. */
  lemma RecordRuleMatchesPattern(introspected: seq<ParamRecord>, message: string, raw: string, word: string)
    ensures RecordRule(introspected, message) == Some((raw, word)) <==>
              && |introspected| > 0 && raw == introspected[0].name && raw != word
              && exists p: nat :: LeftmostMatch(message, p, word)
  {
    SearchExact(message, word);
  }

  /** A message without any match of the pattern records nothing. */
  lemma UnmatchedMessageRecordsNothing(introspected: seq<ParamRecord>, message: string)
    requires forall p, w :: 0 <= p <= |message| ==> !MatchesAt(message, p, w)
    ensures RecordRule(introspected, message).None?
  {
    SearchNone(message);
  }

  /** The override one task contributes, if any. A failure before the call
      (reading the model identifier, loading, building the pipeline,
      introspection) and a call that returns or raises something other than
      a TypeError record nothing. */
  function TaskOverride(task: string, e: TaskEntry,
                        prepares: (string, string) -> bool,
                        call: (string, map<string, Value>) -> CallOutcome): (r: Option<(string, string)>)
    ensures r.Some? ==> exists sig, msg ::
              && Discoverable(e) && e.impl.value.preprocess == Some(sig)
              && call(task, CreateDummyData(IntrospectRequired(sig))) == RaisedTypeError(msg)
              && RecordRule(IntrospectRequired(sig), msg) == r
    ensures r.Some? ==> Discoverable(e) && DefaultModelOf(e).Success? && prepares(task, DefaultModelOf(e).value)
    ensures Discoverable(e) && DefaultModelOf(e).Success? && prepares(task, DefaultModelOf(e).value)
            && e.impl.value.preprocess.Some? ==>
              var introspected := IntrospectRequired(e.impl.value.preprocess.value);
              var outcome := call(task, CreateDummyData(introspected));
              outcome.RaisedTypeError? ==> r == RecordRule(introspected, outcome.message)
  {
    if !Discoverable(e) then None
    else match DefaultModelOf(e)
      case Failure(_) => None
      case Success(model) =>
        if !prepares(task, model) then None
        else match e.impl.value.preprocess
          case None => None
          case Some(sig) =>
            var introspected := IntrospectRequired(sig);
            match call(task, CreateDummyData(introspected))
            case RaisedTypeError(msg) => RecordRule(introspected, msg)
            case _ => None
  }

  /** Adding one task's override to the map being built (lines 104-106). */
  function Record(acc: map<string, map<string, string>>, task: string, o: Option<(string, string)>): map<string, map<string, string>>
  {
    match o
    case None => acc
    case Some((introspectedName, realName)) =>
      var row := if task in acc then acc[task] else map[];
      acc[task := row[introspectedName := realName]]
  }

  /** The loop over the base tasks, from the map built so far. */
  function DiscoverFrom(base: TaskTable, acc: map<string, map<string, string>>,
                        prepares: (string, string) -> bool,
                        call: (string, map<string, Value>) -> CallOutcome): map<string, map<string, string>>
  {
    if |base| == 0 then acc
    else
      var (task, e) := base[0];
      DiscoverFrom(base[1..], Record(acc, task, TaskOverride(task, e, prepares, call)), prepares, call)
  }

  /** `discover_inconsistencies()` without its printing: the final override map. */
  function DiscoverInconsistencies(tasks: TaskTable,
                                   prepares: (string, string) -> bool,
                                   call: (string, map<string, Value>) -> CallOutcome): map<string, map<string, string>>
  {
    DiscoverFrom(DiscoverableTasks(tasks), map[], prepares, call)
  }

  /** The override a task is expected to produce, read from the table. */
  function ExpectedOverride(tasks: TaskTable, t: string,
                            prepares: (string, string) -> bool,
                            call: (string, map<string, Value>) -> CallOutcome): Option<map<string, string>>
  {
    match Get(tasks, t)
    case None => None
    case Some(e) =>
      match TaskOverride(t, e, prepares, call)
      case None => None
      case Some((a, b)) => Some(map[a := b])
  }

  function Lookup<V>(m: map<string, V>, k: string): Option<V>
  {
    if k in m then Some(m[k]) else None
  }

  lemma {:induction false} DiscoverFromLookup(base: TaskTable, acc: map<string, map<string, string>>, t: string,
                                              prepares: (string, string) -> bool,
                                              call: (string, map<string, Value>) -> CallOutcome)
    requires DistinctKeys(base)
    requires t in Keys(base) ==> t !in acc
    ensures Lookup(DiscoverFrom(base, acc, prepares, call), t) ==
              if t in Keys(base) then ExpectedOverride(base, t, prepares, call) else Lookup(acc, t)
  {
    if |base| > 0 {
      var (task, e) := base[0];
      var acc' := Record(acc, task, TaskOverride(task, e, prepares, call));
      assert DistinctKeys(base[1..]);
      assert Keys(base) == [task] + Keys(base[1..]);
      if t == task {
        assert t !in Keys(base[1..]);
      }
      DiscoverFromLookup(base[1..], acc', t, prepares, call);
    }
  }

  /** The discovered map holds, for each task of the table, exactly the
      single override that task's run records, and nothing for tasks that
      are not analysed or record nothing. In particular every recorded row
      has exactly one entry. */
  lemma DiscoverLookup(tasks: TaskTable, t: string,
                       prepares: (string, string) -> bool,
                       call: (string, map<string, Value>) -> CallOutcome)
    requires DistinctKeys(tasks)
    ensures Lookup(DiscoverInconsistencies(tasks, prepares, call), t) == ExpectedOverride(tasks, t, prepares, call)
  {
    DiscoverableTasksLookup(tasks, t);
    DiscoverFromLookup(DiscoverableTasks(tasks), map[], t, prepares, call);
  }

  /** The shipped zero-shot-classification row is what the recording rule
      produces when introspection reports "inputs" and the call complains
      that "sequences" is missing. */
  lemma ZeroShotRowIsDiscovered()
    ensures RecordRule([ParamRecord("inputs", None)], "__call__() " + Instance("1", 0, "sequences"))
            == Some(("inputs", "sequences"))
    ensures ParameterNameMap["zero-shot-classification"] == map["inputs" := "sequences"]
  {
    SingleMissingArgument();
  }
  /** End to end: an analysed task whose model loads, whose signature can
      be inspected and whose call with the dummy data raises a TypeError
      has, in the discovered map, exactly the row the rule makes of that
      message, and no row when the rule records nothing. */
  lemma TypeErrorIsRecorded(tasks: TaskTable, t: string, e: TaskEntry, sig: seq<Param>, msg: string,
                            prepares: (string, string) -> bool,
                            call: (string, map<string, Value>) -> CallOutcome)
    requires DistinctKeys(tasks)
    requires Get(tasks, t) == Some(e)
    requires Discoverable(e) && DefaultModelOf(e).Success?
    requires prepares(t, DefaultModelOf(e).value)
    requires e.impl.value.preprocess == Some(sig)
    requires call(t, CreateDummyData(IntrospectRequired(sig))) == RaisedTypeError(msg)
    ensures Lookup(DiscoverInconsistencies(tasks, prepares, call), t) ==
              match RecordRule(IntrospectRequired(sig), msg)
              case None => None
              case Some((a, w)) => Some(map[a := w])
  {
    DiscoverLookup(tasks, t, prepares, call);
  }

  /** End to end: an analysed task whose model identifier cannot be read,
      or whose model fails to load or whose pipeline cannot be built, has
      no row in the discovered map. */
  lemma LoadFailureLeavesNoRow(tasks: TaskTable, t: string, e: TaskEntry,
                               prepares: (string, string) -> bool,
                               call: (string, map<string, Value>) -> CallOutcome)
    requires DistinctKeys(tasks)
    requires Get(tasks, t) == Some(e)
    requires Discoverable(e) && (DefaultModelOf(e).Failure? || !prepares(t, DefaultModelOf(e).value))
    ensures Lookup(DiscoverInconsistencies(tasks, prepares, call), t) == None
  {
    DiscoverLookup(tasks, t, prepares, call);
  }

  /** The shipped zero-shot-classification row is what discovery finds for
      a task whose only required parameter is "inputs" and whose call
      fails with Python's message for a missing "sequences". */
  lemma ZeroShotTaskIsDiscovered(tasks: TaskTable, e: TaskEntry, sig: seq<Param>,
                                 prepares: (string, string) -> bool,
                                 call: (string, map<string, Value>) -> CallOutcome)
    requires DistinctKeys(tasks)
    requires Get(tasks, "zero-shot-classification") == Some(e)
    requires Discoverable(e) && DefaultModelOf(e).Success?
    requires prepares("zero-shot-classification", DefaultModelOf(e).value)
    requires e.impl.value.preprocess == Some(sig)
    requires IntrospectRequired(sig) == [ParamRecord("inputs", None)]
    requires call("zero-shot-classification", CreateDummyData(IntrospectRequired(sig)))
               == RaisedTypeError("__call__() " + Instance("1", 0, "sequences"))
    ensures Lookup(DiscoverInconsistencies(tasks, prepares, call), "zero-shot-classification")
              == Some(ParameterNameMap["zero-shot-classification"])
  {
    ZeroShotRowIsDiscovered();
    TypeErrorIsRecorded(tasks, "zero-shot-classification", e, sig, "__call__() " + Instance("1", 0, "sequences"),
                        prepares, call);
  }
}
