/**
 The request path of the HTTP service (backend/main.py): building the
 component keyword arguments for the pipeline factory from a loaded
 processor, and the decision flow of the run-pipeline endpoint. Loading,
 pipeline construction and pipeline invocation belong to the inference
 library and are parameters of the model, each able to fail with a message.
 */
module Server {
  import opened Wrappers
  import opened OrderedDict
  import opened Library
  import opened TaskAnalyzer

  const ImageProcessorKey: string := "image_processor"
  const FeatureExtractorKey: string := "feature_extractor"
  const TokenizerKey: string := "tokenizer"

  /** A loaded processor: which of the three component attributes it has
      (None when `hasattr` is false), and the processor object itself. */
  datatype Processor = Processor(
    imageProcessor: Option<Handle>,
    featureExtractor: Option<Handle>,
    tokenizer: Option<Handle>,
    handle: Handle)

  /** The processor has none of the three component attributes. */
  predicate Bare(p: Processor)
  {
    p.imageProcessor.None? && p.featureExtractor.None? && p.tokenizer.None?
  }

  /** `create_pipeline_components(processor)`: each present attribute under
      its own name; a processor with none of them is itself the tokenizer. */
  function CreatePipelineComponents(p: Processor): (c: map<string, Handle>)
    ensures c.Keys <= {ImageProcessorKey, FeatureExtractorKey, TokenizerKey}
    ensures |c| > 0
    ensures ImageProcessorKey in c <==> p.imageProcessor.Some?
    ensures ImageProcessorKey in c ==> c[ImageProcessorKey] == p.imageProcessor.value
    ensures FeatureExtractorKey in c <==> p.featureExtractor.Some?
    ensures FeatureExtractorKey in c ==> c[FeatureExtractorKey] == p.featureExtractor.value
    ensures TokenizerKey in c <==> p.tokenizer.Some? || Bare(p)
    ensures TokenizerKey in c ==> c[TokenizerKey] == (if Bare(p) then p.handle else p.tokenizer.value)
  {
    var c0 := map[];
    var c1 := match p.imageProcessor case Some(h) => c0[ImageProcessorKey := h] case None => c0;
    var c2 := match p.featureExtractor case Some(h) => c1[FeatureExtractorKey := h] case None => c1;
    var c3 := match p.tokenizer case Some(h) => c2[TokenizerKey := h] case None => c2;
    if |c3| == 0 then c3[TokenizerKey := p.handle] else c3
  }

  /** The fallback entry appears exactly for a bare processor: any one of
      the three attributes suppresses it. */
  lemma FallbackOnlyWhenBare(p: Processor)
    ensures CreatePipelineComponents(p) == map[TokenizerKey := p.handle] <==>
              Bare(p) || (p.imageProcessor.None? && p.featureExtractor.None? && p.tokenizer == Some(p.handle))
  {
    var c := CreatePipelineComponents(p);
    if c == map[TokenizerKey := p.handle] {
      assert ImageProcessorKey !in c && FeatureExtractorKey !in c;
    }
  }

  /** A run-pipeline request: the task name and the keyword arguments. */
  datatype Request = Request(taskName: string, inputs: map<string, Value>)

  /** What the endpoint produces: the success body, an HTTPException, or an
      exception that escapes the handler (the framework then answers with
      its own generic server error). */
  datatype Response =
    | Ok(task: string, result: Value)
    | HttpError(status: nat, detail: string)
    | Unhandled(message: string)

  /** A loaded model together with its processor. */
  datatype Loaded = Loaded(model: Handle, processor: Processor)

  /** `get_local_model_and_processor(model_name, task_name)`. */
  type Loader = (string, string) -> Result<Loaded, string>

  /** `pipeline(task, model=model, **components)`. */
  type Builder = (string, Handle, map<string, Handle>) -> Result<Handle, string>

  /** `classifier(**inputs)`. */
  type Invoker = (Handle, map<string, Value>) -> Result<Value, string>

  function NotFoundDetail(taskName: string): string
  {
    "Task '" + taskName + "' not found."
  }

  /** `run_pipeline(request)`. Loading runs outside the `try`, so its
      failure escapes; construction and invocation failures become 500. */
  function RunPipeline(req: Request, taskDetails: seq<(string, TaskDetail)>,
                       load: Loader, build: Builder, invoke: Invoker): (r: Response)
    ensures r == HttpError(404, NotFoundDetail(req.taskName)) <==> req.taskName !in Keys(taskDetails)
    ensures r.Ok? ==> r.task == req.taskName
    ensures r.Ok? ==> exists loaded, pipe ::
              && load(Get(taskDetails, req.taskName).value.defaultModel, req.taskName) == Success(loaded)
              && build(req.taskName, loaded.model, CreatePipelineComponents(loaded.processor)) == Success(pipe)
              && invoke(pipe, req.inputs) == Success(r.result)
    ensures r.HttpError? && r.status == 500 ==> exists loaded ::
              && load(Get(taskDetails, req.taskName).value.defaultModel, req.taskName) == Success(loaded)
              && match build(req.taskName, loaded.model, CreatePipelineComponents(loaded.processor))
                 case Failure(e) => r.detail == e
                 case Success(pipe) => invoke(pipe, req.inputs) == Failure(r.detail)
    ensures r.HttpError? ==> r.status in {404, 500}
    ensures r.HttpError? && r.status == 404 ==> req.taskName !in Keys(taskDetails)
    ensures r.Unhandled? ==> req.taskName in Keys(taskDetails)
    ensures r.Unhandled? ==>
              load(Get(taskDetails, req.taskName).value.defaultModel, req.taskName) == Failure(r.message)
  {
    match Get(taskDetails, req.taskName)
    case None => HttpError(404, NotFoundDetail(req.taskName))
    case Some(detail) =>
      match load(detail.defaultModel, req.taskName)
      case Failure(e) => Unhandled(e)
      case Success(loaded) =>
        var components := CreatePipelineComponents(loaded.processor);
        match build(req.taskName, loaded.model, components)
        case Failure(e) => HttpError(500, e)
        case Success(pipe) =>
          match invoke(pipe, req.inputs)
          case Failure(e) => HttpError(500, e)
          case Success(result) => Ok(req.taskName, result)
  }

  /** For a known task whose model loads, the answer follows the first
      failing step: a construction failure or an invocation failure becomes
      500 with its message, and when every step succeeds the body is the
      task name with the pipeline's result. */
  lemma RunPipelineSteps(req: Request, taskDetails: seq<(string, TaskDetail)>,
                         load: Loader, build: Builder, invoke: Invoker, loaded: Loaded)
    requires req.taskName in Keys(taskDetails)
    requires load(Get(taskDetails, req.taskName).value.defaultModel, req.taskName) == Success(loaded)
    ensures var built := build(req.taskName, loaded.model, CreatePipelineComponents(loaded.processor));
            var r := RunPipeline(req, taskDetails, load, build, invoke);
            && (built.Failure? ==> r == HttpError(500, built.error))
            && (built.Success? && invoke(built.value, req.inputs).Failure? ==>
                  r == HttpError(500, invoke(built.value, req.inputs).error))
            && (built.Success? && invoke(built.value, req.inputs).Success? ==>
                  r == Ok(req.taskName, invoke(built.value, req.inputs).value))
  {
  }

  /** An unknown task is answered with 404 before anything is loaded: the
      answer does not depend on the loader, the factory or the pipeline. */
  lemma UnknownTaskLoadsNothing(req: Request, taskDetails: seq<(string, TaskDetail)>,
                                load1: Loader, build1: Builder, invoke1: Invoker,
                                load2: Loader, build2: Builder, invoke2: Invoker)
    requires req.taskName !in Keys(taskDetails)
    ensures RunPipeline(req, taskDetails, load1, build1, invoke1) == RunPipeline(req, taskDetails, load2, build2, invoke2)
    ensures RunPipeline(req, taskDetails, load1, build1, invoke1).HttpError?
  {
  }

  /** A known task loads exactly its default model: loaders that agree on
      that one model give the same answer. */
  lemma KnownTaskLoadsDefaultModel(req: Request, taskDetails: seq<(string, TaskDetail)>,
                                   load1: Loader, load2: Loader, build: Builder, invoke: Invoker)
    requires req.taskName in Keys(taskDetails)
    requires var m := Get(taskDetails, req.taskName).value.defaultModel;
             load1(m, req.taskName) == load2(m, req.taskName)
    ensures RunPipeline(req, taskDetails, load1, build, invoke) == RunPipeline(req, taskDetails, load2, build, invoke)
  {
  }
}
