# Hugging Face pipeline toolkit: task discovery and dispatch, in Dafny

This project models the small amount of original logic in a thin HTTP
wrapper around the `transformers` inference library. The library's
metadata is taken as input data:

- the task table `SUPPORTED_TASKS` is an ordered sequence of
  `(task, TaskEntry)` rows with optional `impl` and `default` entries;
- `inspect.signature(impl.preprocess)` is an `Option<seq<Param>>` on
  the implementation, where `None` means "introspection raised";
- model loading, pipeline construction and pipeline invocation are
  function parameters that can fail with a message.

Four pieces are modelled, one module each:

- **Registry** (`backend/utils/hf_get_pipeline_models.py`). Keeps the tasks
  whose default entry names a model and maps each to its first PyTorch model
  identifier.
- **TaskAnalyzer** (`backend/utils/hf_task_analyzer.py`). For every such task
  it builds the parameter list of `preprocess`:
  - drops `self`, `args` and `kwargs`;
  - renames through the hand-written override table `PARAMETER_NAME_MAP`;
  - fills in the `"any"` and `"REQUIRED"` sentinels.

  A task whose inspection fails is skipped.
- **ErrorPattern** and **Discovery** (`scripts/discover_param_names.py`). This
  is the maintenance script that finds override entries:
  - dummy arguments come from a first-match rule over parameter names;
  - only required parameters are kept;
  - a `TypeError` message is scanned for
    `missing \d+ required positional argument[s]*: '(\w+)'`;
  - the first introspected name is mapped to the captured name when the two
    differ.

  The scanner is proved to accept exactly the pattern's language and to
  return the leftmost match.
- **Server** (`backend/main.py`). Picks pipeline components from a loaded
  processor. `run_pipeline` then decides between:
  - 404 for an unknown task;
  - an exception that escapes the handler, when loading fails;
  - 500 carrying the message, when construction or invocation fails;
  - success.

Helper modules: `Wrappers` (Option, Result), `OrderedDict` (Python dicts as
sequences of pairs with distinct keys, `Get`, subsequence order) and
`Library` (the library's data shapes).

`run_pipeline` always passes the request's mapping to the pipeline as
keyword arguments (backend/main.py:81), and so does the model.

## Model

| member | source | states |
|---|---|---|
| Registry.GetSupportedModels | backend/utils/hf_get_pipeline_models.py:8-12 | the comprehension succeeds iff no row with a "model" entry lacks a readable identifier; on failure the error is that of the first such row; every output pair is a table task with "model" and its `pt[0]` |
| Registry.SupportedModelsLookup | backend/utils/hf_get_pipeline_models.py:8-11 | as a dictionary the result maps exactly the tasks whose default has "model" to `pt[0]`; rows without "default" or without "model" are skipped, and unknown names are absent |
| Registry.SupportedModelsOrdered | backend/utils/hf_get_pipeline_models.py:8-10 | the result's keys are a subsequence of the table's keys: no task is added and table order is kept |
| Registry.SupportedModelsDistinct | backend/utils/hf_get_pipeline_models.py:8-12 | the result is a well-formed dictionary: no task occurs twice |
| TaskAnalyzer.ResolveParamRoundTrip | backend/utils/hf_task_analyzer.py:50-54 | reading an entry back (sentinels as absent) recovers the parameter's annotation and default exactly when the annotation is not "any" and the default is not the string "REQUIRED": the sentinels are the only information the entry loses |
| TaskAnalyzer.ResolveParamsMembers | backend/utils/hf_task_analyzer.py:41-54 | every entry comes from a parameter not named self/args/kwargs, and every such parameter yields its entry |
| TaskAnalyzer.NonInternal | backend/utils/hf_task_analyzer.py:43-44 | the parameters kept are exactly those not named self, args or kwargs |
| TaskAnalyzer.ResolveParamsPointwise | backend/utils/hf_task_analyzer.py:41-54 | exactly one entry per non-internal parameter, in signature order: entry k is the k-th non-internal parameter resolved |
| TaskAnalyzer.ResolveParamsAppend | backend/utils/hf_task_analyzer.py:41-54 | resolving a concatenated signature gives the concatenation of the resolved parts, so the loop is order-preserving and position-independent |
| TaskAnalyzer.UnlistedTaskKeepsNames | backend/utils/hf_task_analyzer.py:48 | a task absent from the override table reports every non-internal name unchanged, position by position |
| TaskAnalyzer.OverrideTableAcyclic | backend/utils/hf_task_analyzer.py:6-11 | in the shipped table no corrected name of a row is itself a key of that row |
| TaskAnalyzer.OverriddenNameAbsent | backend/utils/hf_task_analyzer.py:6-11 | a raw name that has an override never appears among that task's resolved names |
| TaskAnalyzer.CorrectedNamePresent | backend/utils/hf_task_analyzer.py:47-50 | a raw name that has an override and occurs in the signature appears under its corrected name |
| TaskAnalyzer.RequiredSentinelAmbiguous | backend/utils/hf_task_analyzer.py:53 | "REQUIRED" is in-band: a parameter without a default and one whose default is the string "REQUIRED" resolve to the same entry |
| TaskAnalyzer.InspectAll | backend/utils/hf_task_analyzer.py:33-64 | the inspection loop only keeps or drops base tasks, in their order |
| TaskAnalyzer.GetFullTaskDetails | backend/utils/hf_task_analyzer.py:14-66 | the call raises exactly when the base-task comprehension does (it lies outside the try); otherwise its keys are a subsequence of the table's keys |
| TaskAnalyzer.TaskDetailsLookup | backend/utils/hf_task_analyzer.py:26-64 | a task is present iff its default has "model" and its preprocess signature can be introspected; its entry is the default model `pt[0]` and the resolved parameters; a failed inspection omits only that task |
| ErrorPattern.MatchAtSound | scripts/discover_param_names.py:95-96 | every match the anchored scanner reports is an instance of the pattern with that captured word |
| ErrorPattern.MatchAtComplete | scripts/discover_param_names.py:95-96 | every instance of the pattern at a position is found by the scanner with the same captured word |
| ErrorPattern.MatchAtExact | scripts/discover_param_names.py:95-96 | the scanner at a position and the pattern's language agree in both directions |
| ErrorPattern.SearchLeftmost | scripts/discover_param_names.py:95-98 | a found word is captured by a match of the pattern and no match starts earlier |
| ErrorPattern.SearchNone | scripts/discover_param_names.py:95-97 | search finds nothing exactly when the pattern matches at no position |
| ErrorPattern.SearchExact | scripts/discover_param_names.py:95-98 | search returns a word exactly when that word is captured by a match of the pattern with no match at any earlier position |
| ErrorPattern.SearchFindsInstance | scripts/discover_param_names.py:95-98 | an instance of the pattern after a prefix containing no `m` is the leftmost match, whatever follows it |
| ErrorPattern.SingleMissingArgument | scripts/discover_param_names.py:95-98 | the message for one missing argument yields that argument's name |
| ErrorPattern.SeveralMissingArguments | scripts/discover_param_names.py:95-98 | with "arguments" and several names only the first name is captured: multi-argument mismatches yield one override |
| Discovery.DummyValueIsFirstMatch | scripts/discover_param_names.py:25-41 | the if/elif chain equals first-match over the priority table image, video, audio, inputs, candidate_labels, example, sequences |
| Discovery.SequencesIsExact | scripts/discover_param_names.py:40-41 | `sequences` is an exact test: the name itself gets the test sentence, "input_sequences" gets no entry |
| Discovery.CreateDummyData | scripts/discover_param_names.py:20-42 | a name is a key iff it is a parameter name some rule fires for, and its value is that rule's value; keys are always parameter names |
| Discovery.IntrospectedUseGenericSentence | scripts/discover_param_names.py:31-35 | records built by introspection carry no "type", so on this path the fill-mask sentence is never chosen |
| Discovery.IntrospectRequired | scripts/discover_param_names.py:80-84 | the records are exactly the parameters that are neither self/args/kwargs nor defaulted, name only; the first record is the first such parameter in signature order |
| Discovery.IntrospectRequiredPointwise | scripts/discover_param_names.py:80-84 | the list has one record per required parameter: record k holds the name of the k-th parameter that is neither self/args/kwargs nor defaulted, with no type |
| Discovery.RequiredParamsOrdered | scripts/discover_param_names.py:81-84 | the required parameters are a subsequence of the signature, so the records follow signature order |
| Discovery.DiscoverableTasksLookup | scripts/discover_param_names.py:51-54 | a task is analysed iff its details have "impl" and "default" and the default has "model" |
| Discovery.RecordRuleMatchesPattern | scripts/discover_param_names.py:95-106 | a pair (a, w) is recorded iff the introspected list is non-empty, a is its first name, w is the word captured by the leftmost match of the pattern in the message, and a differs from w |
| Discovery.UnmatchedMessageRecordsNothing | scripts/discover_param_names.py:95-97 | a message in which the pattern matches nowhere records no override |
| Discovery.TaskOverride | scripts/discover_param_names.py:58-111 | a task contributes an override only when it is analysed, its model identifier reads, loading and construction succeed, introspection succeeds and the call with the dummy data raises a TypeError whose message the rule accepts; conversely, once the model loads and introspection succeeds, a TypeError from the call records exactly what the rule makes of its message |
| Discovery.LoadFailureLeavesNoRow | scripts/discover_param_names.py:62-73 | an analysed task whose model identifier cannot be read, whose model fails to load or whose pipeline cannot be built has no row in the final map: the generic exception handler (lines 109-111) records nothing |
| Discovery.TypeErrorIsRecorded | scripts/discover_param_names.py:56-106 | for an analysed task whose model loads, whose signature can be inspected and whose call with the dummy data raises a TypeError, the discovered map holds for that task exactly the one-entry row the rule makes of the message (first introspected name to captured word), and no row when the rule records nothing |
| Discovery.ZeroShotTaskIsDiscovered | scripts/discover_param_names.py:56-111 | a zero-shot-classification task introspected as "inputs" whose call fails with Python's missing-"sequences" message ends up in the discovered map with exactly the shipped row of the override table |
| Discovery.DiscoverFromLookup | scripts/discover_param_names.py:56-106 | the loop sets each visited task's row from that task's own run and leaves every other row as it was |
| Discovery.DiscoverLookup | scripts/discover_param_names.py:45-111 | the final map holds, for each table task, exactly the single override its run records and nothing otherwise, so every row has one entry |
| Discovery.ZeroShotRowIsDiscovered | scripts/discover_param_names.py:95-106 | introspected "inputs" with a message naming "sequences" records the shipped zero-shot-classification row |
| Server.CreatePipelineComponents | backend/main.py:29-47 | keys lie within image_processor, feature_extractor and tokenizer; each present attribute appears under its own name with its value; the result is never empty; without any attribute tokenizer is the processor itself |
| Server.FallbackOnlyWhenBare | backend/main.py:44-45 | the result is the lone fallback exactly when no attribute exists, or the only one is a tokenizer that is the processor itself |
| Server.RunPipeline | backend/main.py:61-84 | 404 with its detail iff the task is unknown, and no 404 for a known task; success carries the request's task name and the result of invoking the pipeline built from the default model; 500 carries the construction or invocation message; a loading failure escapes unhandled |
| Server.RunPipelineSteps | backend/main.py:66-84 | for a known task whose model loads: a construction failure gives 500 with its message, an invocation failure gives 500 with its message, and when both succeed the body is the task name with the result |
| Server.UnknownTaskLoadsNothing | backend/main.py:63-64 | for an unknown task the response does not depend on the loader, the factory or the pipeline |
| Server.KnownTaskLoadsDefaultModel | backend/main.py:66-71 | for a known task only the loader's answer for the task's default model matters |

## Left out

- The `transformers` library is not modelled: the contents of `SUPPORTED_TASKS`, `inspect.signature`, `pipeline(...)`, `from_pretrained` and `save_pretrained`. They are foreign code and appear only as inputs and function parameters.
- backend/utils/hf_model_localizer.py and utils/hf_model_localizer.py are not modelled. They do file-system and hub I/O. The outcome of `get_local_model_and_processor` (backend/utils/hf_model_localizer.py:14) is the `Loader` parameter of `Server.RunPipeline`.
- Discovery.TaskOverride: the `prepares` parameter stands for the evidently intended `get_local_model` of utils/hf_model_localizer.py:4. scripts/discover_param_names.py:8 imports `get_local_model` from backend/utils/hf_model_localizer.py, which defines only `get_local_model_and_processor`, so the script as written stops with an ImportError before any modelled step runs.
- FastAPI routing, Pydantic validation, logging setup, and the `/` and `/tasks` endpoints are left out. `/tasks` returns the resolver's result unchanged. The module-level `TASK_DETAILS` is passed to `Server.RunPipeline` as an argument.
- Server.RunPipeline: when loading fails, the result is `Unhandled(message)`. The framework's own generic 500 body is not modelled. Serialising the result to JSON is not modelled either.
- Console printing is left out: the progress messages and the final dictionary printout of discover_param_names.py.
- Discovery.TaskOverride: a `TypeError` raised before the introspected list is built (reading the model identifier, loading, pipeline construction or `inspect.signature`, scripts/discover_param_names.py:62-78) records nothing in the model. The script records nothing either when the pattern does not match the message (line 108). When the pattern does match, the script reads `introspected_params` anyway (lines 97-99). That is the list of the last task that reached line 80, or an unbound local (an UnboundLocalError, which is a NameError) if no task has yet.
- ErrorPattern.MatchAtExact: `\d` and `\w` are taken as ASCII digits and as ASCII letters, digits and `_`. Python's Unicode classes are wider.
- Python values are reduced to strings, string lists, string dictionaries and opaque objects (`Library.Value`). Annotations arrive already stringified.
- tests/, test.py, the two hftransformers.py demo scripts and utils/hf_get_pipeline_models.py are not modelled. The tests and test.py are live network clients, the demos run pipelines, and the last file is a print script that duplicates `get_supported_models`.
